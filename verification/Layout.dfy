/** The source layout: which inventories of validated paths form a file tree. */
module Layout {
  import opened Common

  /** A path as its non-empty list of components. */
  type Parts = seq<string>

  /** Normalisation and case folding of a joined path. */
  type Fold = Parts -> string

  datatype Kind = Leaf | Directory

  datatype Mark = Mark(node: Parts, kind: Kind)

  predicate ValidPaths(paths: seq<Parts>) { forall i | 0 <= i < |paths| :: paths[i] != [] }

  // ----- the condition -----

  predicate Distinct(paths: seq<Parts>) { forall i, j | 0 <= i < j < |paths| :: paths[i] != paths[j] }

  /** No path runs through another one. */
  predicate PrefixFree(paths: seq<Parts>) { forall p, q | p in paths && q in paths :: !(p < q) }

  predicate IsNode(paths: seq<Parts>, node: Parts) { node != [] && exists p :: p in paths && node <= p }

  /** Folding keeps apart every two nodes of the tree. */
  ghost predicate FoldInjective(fold: Fold, paths: seq<Parts>) {
    forall a, b | IsNode(paths, a) && IsNode(paths, b) && fold(a) == fold(b) :: a == b
  }

  ghost predicate Clean(fold: Fold, paths: seq<Parts>) {
    Distinct(paths) && PrefixFree(paths) && FoldInjective(fold, paths)
  }

  /** What each path says about its prefixes. */
  predicate Marked(paths: seq<Parts>, m: Mark) {
    m.node != [] &&
    match m.kind
    case Leaf => m.node in paths
    case Directory => exists p :: p in paths && m.node < p
  }

  // ----- what the loop has recorded -----

  /** The two dictionaries hold exactly these marks, so no two of them share a folded key. */
  ghost predicate Records(fold: Fold, marks: set<Mark>, normalized: map<string, Mark>, nodes: map<Parts, Kind>) {
    (forall m | m in marks :: RecordedAs(fold, m, normalized, nodes)) &&
    (forall k | k in normalized :: normalized[k] in marks && fold(normalized[k].node) == k) &&
    (forall n | n in nodes :: Mark(n, nodes[n]) in marks)
  }

  predicate RecordedAs(fold: Fold, m: Mark, normalized: map<string, Mark>, nodes: map<Parts, Kind>) {
    fold(m.node) in normalized && normalized[fold(m.node)] == m && m.node in nodes && nodes[m.node] == m.kind
  }

  lemma RecordsGrow(fold: Fold, marks: set<Mark>, normalized: map<string, Mark>, nodes: map<Parts, Kind>, m: Mark)
    requires Records(fold, marks, normalized, nodes)
    requires fold(m.node) in normalized ==> normalized[fold(m.node)] == m
    ensures Records(fold, marks + {m}, normalized[fold(m.node) := m], nodes[m.node := m.kind])
    ensures m.node in nodes ==> nodes[m.node] == m.kind
  {
    if m.node in nodes {
      var n := Mark(m.node, nodes[m.node]);
      assert RecordedAs(fold, n, normalized, nodes);
    }
    forall x | x in marks + {m}
      ensures RecordedAs(fold, x, normalized[fold(m.node) := m], nodes[m.node := m.kind])
    {
      if x in marks { assert RecordedAs(fold, x, normalized, nodes); }
    }
  }

  /** The marks of the first paths, and of the first `index` prefixes of the next. */
  ghost predicate Holds(paths: seq<Parts>, done: nat, index: nat, marks: set<Mark>) {
    forall m :: m in marks <==>
      (done <= |paths| && Marked(paths[..done], m)) ||
      (done < |paths| && MarkedBy(paths[done], index, m))
  }

  predicate MarkedBy(p: Parts, index: nat, m: Mark) {
    1 <= |m.node| <= index && m.node <= p && m.kind == (if |m.node| == |p| then Leaf else Directory)
  }

  function MarkAt(p: Parts, index: nat): Mark
    requires index <= |p|
  {
    Mark(p[..index], if index == |p| then Leaf else Directory)
  }

  lemma HoldsGrows(paths: seq<Parts>, done: nat, index: nat, marks: set<Mark>)
    requires done < |paths| && index < |paths[done]| && Holds(paths, done, index, marks)
    ensures Holds(paths, done, index + 1, marks + {MarkAt(paths[done], index + 1)})
  {
    var p := paths[done];
    forall m
      ensures MarkedBy(p, index + 1, m) <==> MarkedBy(p, index, m) || m == MarkAt(p, index + 1)
    {
      if MarkedBy(p, index + 1, m) && |m.node| == index + 1 { assert m.node == p[..index + 1]; }
    }
  }

  lemma HoldsNext(paths: seq<Parts>, done: nat, marks: set<Mark>)
    requires done < |paths| && paths[done] != [] && Holds(paths, done, |paths[done]|, marks)
    ensures Holds(paths, done + 1, 0, marks)
  {
    forall m
      ensures Marked(paths[..done + 1], m) <==> Marked(paths[..done], m) || MarkedBy(paths[done], |paths[done]|, m)
    {
      MarkedGrows(paths, done, m);
    }
  }

  lemma MarkedGrows(paths: seq<Parts>, done: nat, m: Mark)
    requires done < |paths| && paths[done] != []
    ensures Marked(paths[..done + 1], m) <==> Marked(paths[..done], m) || MarkedBy(paths[done], |paths[done]|, m)
  {
    var (p, before, after) := (paths[done], paths[..done], paths[..done + 1]);
    assert after == before + [p];
    if m.kind == Directory {
      if Marked(after, m) {
        var q :| q in after && m.node < q;
        assert q in before || q == p;
      }
      if MarkedBy(p, |p|, m) { assert m.node < p && p in after; }
      if Marked(before, m) {
        var q :| q in before && m.node < q;
        assert q in after;
      }
    } else if MarkedBy(p, |p|, m) {
      assert m.node == p;
    }
  }

  /** Marks with one key are one mark. */
  ghost predicate Compatible(fold: Fold, paths: seq<Parts>) {
    forall m, n | Marked(paths, m) && Marked(paths, n) && fold(m.node) == fold(n.node) :: m == n
  }

  /** Earlier marks are marks of the whole inventory. */
  lemma MarkedLater(paths: seq<Parts>, done: nat, m: Mark)
    requires done <= |paths| && ValidPaths(paths)
    ensures Marked(paths[..done], m) ==> Marked(paths, m)
    ensures done < |paths| ==> forall index | MarkedBy(paths[done], index, m) :: Marked(paths, m)
  {
    if m.kind == Directory && Marked(paths[..done], m) {
      var q :| q in paths[..done] && m.node < q;
      assert q in paths;
    }
    if done < |paths| {
      forall index | MarkedBy(paths[done], index, m)
        ensures Marked(paths, m)
      {
        assert m.node <= paths[done] && paths[done] in paths;
        if |m.node| == |paths[done]| { assert m.node == paths[done]; } else { assert m.node < paths[done]; }
      }
    }
  }

  lemma {:induction false} CompatibleIffClean(fold: Fold, paths: seq<Parts>)
    requires ValidPaths(paths)
    ensures Distinct(paths) && Compatible(fold, paths) <==> Clean(fold, paths)
  {
    if Compatible(fold, paths) { CompatibleIsClean(fold, paths); }
    if Clean(fold, paths) { CleanIsCompatible(fold, paths); }
  }

  lemma NodeIsMarked(paths: seq<Parts>, a: Parts) returns (m: Mark)
    requires IsNode(paths, a)
    ensures m.node == a && Marked(paths, m)
  {
    var p :| p in paths && a <= p;
    if a == p {
      m := Mark(a, Leaf);
    } else {
      m := Mark(a, Directory);
      assert a < p;
    }
  }

  lemma CompatibleIsClean(fold: Fold, paths: seq<Parts>)
    requires ValidPaths(paths) && Compatible(fold, paths)
    ensures PrefixFree(paths) && FoldInjective(fold, paths)
  {
    forall p, q | p in paths && q in paths
      ensures !(p < q)
    {
      assert Marked(paths, Mark(p, Leaf));
      assert p < q ==> Marked(paths, Mark(p, Directory));
    }
    forall a, b | IsNode(paths, a) && IsNode(paths, b) && fold(a) == fold(b)
      ensures a == b
    {
      var m := NodeIsMarked(paths, a);
      var n := NodeIsMarked(paths, b);
    }
  }

  lemma OneMark(fold: Fold, paths: seq<Parts>, m: Mark, n: Mark)
    requires PrefixFree(paths) && FoldInjective(fold, paths)
    requires Marked(paths, m) && Marked(paths, n) && fold(m.node) == fold(n.node)
    ensures m == n
  {
    MarkIsNode(paths, m);
    MarkIsNode(paths, n);
    KindsAgree(paths, m.node);
    assert n == Mark(m.node, n.kind);
  }

  lemma CleanIsCompatible(fold: Fold, paths: seq<Parts>)
    requires ValidPaths(paths) && Clean(fold, paths)
    ensures Compatible(fold, paths)
  {
    forall m, n | Marked(paths, m) && Marked(paths, n) && fold(m.node) == fold(n.node)
      ensures m == n
    {
      OneMark(fold, paths, m, n);
    }
  }

  lemma MarkIsNode(paths: seq<Parts>, m: Mark)
    requires Marked(paths, m)
    ensures IsNode(paths, m.node)
  {
    if m.kind == Directory {
      var p :| p in paths && m.node < p;
      assert m.node <= p;
    } else {
      assert m.node <= m.node;
    }
  }

  lemma KindsAgree(paths: seq<Parts>, node: Parts)
    requires PrefixFree(paths)
    ensures !(Marked(paths, Mark(node, Leaf)) && Marked(paths, Mark(node, Directory)))
  {
  }

  // ----- building the layout -----

  datatype Tree = Tree(
    leaves: set<Parts>,
    directories: set<Parts>,
    children: map<Parts, map<string, Kind>>,
    nodes: map<Parts, Kind>)

  /** The nodes of the tree are exactly the prefixes of the paths, with their kinds. */
  ghost predicate NodesOf(paths: seq<Parts>, nodes: map<Parts, Kind>) {
    forall n, k :: Has(nodes, n, k) <==> Marked(paths, Mark(n, k))
  }

  predicate Has(nodes: map<Parts, Kind>, n: Parts, k: Kind) { n in nodes && nodes[n] == k }

  predicate HasChild(children: map<Parts, map<string, Kind>>, d: Parts, name: string, k: Kind) {
    d in children && name in children[d] && children[d][name] == k
  }

  ghost predicate Describes(paths: seq<Parts>, t: Tree) {
    (forall p :: p in t.leaves <==> p in paths) && NodesOf(paths, t.nodes) &&
    (forall d :: d in t.directories <==> d == [] || Marked(paths, Mark(d, Directory))) &&
    (forall d, name, k :: HasChild(t.children, d, name, k) <==> Marked(paths, Mark(d + [name], k)))
  }

  /** One dictionary entry under its parent directory. */
  function WithChild(children: map<Parts, map<string, Kind>>, node: Parts, k: Kind): map<Parts, map<string, Kind>>
    requires node != []
  {
    var (d, name) := (node[..|node| - 1], node[|node| - 1]);
    children[d := (if d in children then children[d] else map[])[name := k]]
  }

  lemma WithChildHas(children: map<Parts, map<string, Kind>>, node: Parts, k: Kind, d: Parts, name: string, j: Kind)
    requires node != []
    ensures HasChild(WithChild(children, node, k), d, name, j) <==>
            if d + [name] == node then j == k else HasChild(children, d, name, j)
  {
    assert node == node[..|node| - 1] + [node[|node| - 1]];
    if d + [name] == node { assert d == node[..|node| - 1] && name == node[|node| - 1]; }
  }

  /** The children recorded so far are those of the nodes handled so far. */
  ghost predicate ChildrenOf(children: map<Parts, map<string, Kind>>, dirs: set<Parts>, leaves: set<Parts>) {
    forall d, name, k :: HasChild(children, d, name, k) <==> d + [name] in (if k == Directory then dirs else leaves)
  }

  lemma ChildrenGrow(children: map<Parts, map<string, Kind>>, dirs: set<Parts>, leaves: set<Parts>, node: Parts, k: Kind)
    requires ChildrenOf(children, dirs, leaves) && node != [] && node !in (if k == Directory then leaves else dirs)
    ensures ChildrenOf(
              WithChild(children, node, k),
              if k == Directory then dirs + {node} else dirs,
              if k == Directory then leaves else leaves + {node})
  {
    forall d, name, j
      ensures HasChild(WithChild(children, node, k), d, name, j) <==>
              d + [name] in (if j == Directory then (if k == Directory then dirs + {node} else dirs)
                             else (if k == Directory then leaves else leaves + {node}))
    {
      WithChildHas(children, node, k, d, name, j);
      assert HasChild(children, d, name, j) <==> d + [name] in (if j == Directory then dirs else leaves);
    }
  }

  /** The children of every directory, from the directories and then the leaves. */
  method Children(directories: set<Parts>, leaves: set<Parts>) returns (children: map<Parts, map<string, Kind>>)
    requires [] !in leaves && directories !! leaves
    ensures ChildrenOf(children, directories - {[]}, leaves)
  {
    children := map[];
    ghost var dirs: set<Parts> := {};
    ghost var files: set<Parts> := {};
    var rest := directories;
    while rest != {}
      invariant rest <= directories && dirs == directories - rest - {[]} && ChildrenOf(children, dirs, {})
      decreases rest
    {
      var d :| d in rest;
      if d != [] {
        ChildrenGrow(children, dirs, {}, d, Directory);
        children := WithChild(children, d, Directory);
        dirs := dirs + {d};
      }
      rest := rest - {d};
    }
    rest := leaves;
    while rest != {}
      invariant rest <= leaves && files == leaves - rest && ChildrenOf(children, directories - {[]}, files)
      decreases rest
    {
      var p :| p in rest;
      ChildrenGrow(children, directories - {[]}, files, p, Leaf);
      children := WithChild(children, p, Leaf);
      files := files + {p};
      rest := rest - {p};
    }
  }

  datatype Books = Books(normalized: map<string, Mark>, nodes: map<Parts, Kind>, directories: set<Parts>)

  /** The bookkeeping of one prefix; a clash of folded keys or of kinds is refused. */
  function Noted(fold: Fold, b: Books, m: Mark): Option<Books> {
    var key := fold(m.node);
    if key in b.normalized && b.normalized[key] != m then None
    else if m.node in b.nodes && b.nodes[m.node] != m.kind then None
    else
      Some(Books(b.normalized[key := m], b.nodes[m.node := m.kind],
                 if m.kind == Directory then b.directories + {m.node} else b.directories))
  }

  ghost predicate Kept(fold: Fold, paths: seq<Parts>, done: nat, index: nat, marks: set<Mark>, b: Books) {
    Records(fold, marks, b.normalized, b.nodes) && Holds(paths, done, index, marks) &&
    forall d :: d in b.directories <==> d == [] || Mark(d, Directory) in marks
  }

  lemma NotedKeeps(fold: Fold, paths: seq<Parts>, done: nat, index: nat, marks: set<Mark>, b: Books)
    requires ValidPaths(paths) && done < |paths| && index < |paths[done]| && Kept(fold, paths, done, index, marks, b)
    ensures var m := MarkAt(paths[done], index + 1);
            match Noted(fold, b, m)
            case Some(c) => Kept(fold, paths, done, index + 1, marks + {m}, c)
            case None => !Compatible(fold, paths)
  {
    var m := MarkAt(paths[done], index + 1);
    var key := fold(m.node);
    if key in b.normalized && b.normalized[key] != m {
      Clash(fold, paths, done, index, marks, b.normalized[key], m);
    } else {
      RecordsGrow(fold, marks, b.normalized, b.nodes, m);
      HoldsGrows(paths, done, index, marks);
    }
  }

  lemma Clash(fold: Fold, paths: seq<Parts>, done: nat, index: nat, marks: set<Mark>, n: Mark, m: Mark)
    requires ValidPaths(paths) && done < |paths| && index < |paths[done]| && Holds(paths, done, index, marks)
    requires n in marks && m == MarkAt(paths[done], index + 1) && n != m && fold(n.node) == fold(m.node)
    ensures !Compatible(fold, paths)
  {
    MarkedLater(paths, done, n);
    MarkedLater(paths, done, m);
    assert MarkedBy(paths[done], index + 1, m);
    assert Marked(paths, n) && Marked(paths, m);
  }

  method NotePrefixes(fold: Fold, paths: seq<Parts>, done: nat, ghost marks: set<Mark>, b: Books)
    returns (r: Option<Books>, ghost after: set<Mark>)
    requires ValidPaths(paths) && done < |paths| && Kept(fold, paths, done, 0, marks, b)
    ensures r.Some? ==> Kept(fold, paths, done + 1, 0, after, r.value)
    ensures r.None? ==> !Compatible(fold, paths)
  {
    var p := paths[done];
    var books := b;
    after := marks;
    var index := 0;
    while index < |p|
      invariant 0 <= index <= |p| && Kept(fold, paths, done, index, after, books)
    {
      NotedKeeps(fold, paths, done, index, after, books);
      var m := Mark(p[..index + 1], if index + 1 == |p| then Leaf else Directory);
      var noted := Noted(fold, books, m);
      if noted.None? { return None, after; }
      books := noted.value;
      after := after + {m};
      index := index + 1;
    }
    HoldsNext(paths, done, after);
    return Some(books), after;
  }

  /** The loop over the paths; it stops at the first repeated path or clashing prefix. */
  method Gather(fold: Fold, paths: seq<Parts>)
    returns (ok: bool, leaves: set<Parts>, books: Books, ghost marks: set<Mark>)
    requires ValidPaths(paths)
    ensures ok ==> Kept(fold, paths, |paths|, 0, marks, books) && LeavesOf(paths, |paths|, leaves)
    ensures !ok ==> !Distinct(paths) || !Compatible(fold, paths)
  {
    leaves, books, marks := {}, Books(map[], map[], {[]}), {};
    var i := 0;
    while i < |paths|
      invariant 0 <= i <= |paths| && Kept(fold, paths, i, 0, marks, books)
      invariant LeavesOf(paths, i, leaves)
    {
      if paths[i] in leaves {
        Repeated(paths, i, leaves);
        return false, leaves, books, marks;
      }
      LeavesGrow(paths, i, leaves);
      leaves := leaves + {paths[i]};
      var noted: Option<Books>;
      noted, marks := NotePrefixes(fold, paths, i, marks, books);
      if noted.None? { return false, leaves, books, marks; }
      books := noted.value;
      i := i + 1;
    }
    ok := true;
  }

  /**
   The layout is formed exactly when the paths are distinct, none runs through another, and folding
   keeps all their prefixes apart; it then describes exactly those paths.
   */
  method Build(fold: Fold, paths: seq<Parts>) returns (r: Option<Tree>)
    requires ValidPaths(paths)
    ensures r.Some? <==> Clean(fold, paths)
    ensures r.Some? ==> Describes(paths, r.value)
  {
    CompatibleIffClean(fold, paths);
    var ok, leaves, books, marks := Gather(fold, paths);
    if !ok { return None; }
    GatheredIsClean(fold, paths, leaves, marks, books);
    var children := Children(books.directories, leaves);
    GatheredDescribes(fold, paths, leaves, marks, books, children);
    return Some(Tree(leaves, books.directories, children, books.nodes));
  }

  lemma GatheredIsClean(fold: Fold, paths: seq<Parts>, leaves: set<Parts>, marks: set<Mark>, b: Books)
    requires ValidPaths(paths) && Kept(fold, paths, |paths|, 0, marks, b) && LeavesOf(paths, |paths|, leaves)
    ensures Clean(fold, paths) && [] !in leaves && b.directories !! leaves
  {
    assert paths[..|paths|] == paths;
    MarksDescribe(fold, paths, marks, b);
    CompatibleIsClean(fold, paths);
    LeavesApart(paths, leaves, b.directories);
  }

  lemma GatheredDescribes(
      fold: Fold, paths: seq<Parts>, leaves: set<Parts>, marks: set<Mark>, b: Books,
      children: map<Parts, map<string, Kind>>)
    requires Kept(fold, paths, |paths|, 0, marks, b) && LeavesOf(paths, |paths|, leaves)
    requires ChildrenOf(children, b.directories - {[]}, leaves)
    ensures Describes(paths, Tree(leaves, b.directories, children, b.nodes))
  {
    assert paths[..|paths|] == paths;
    MarksDescribe(fold, paths, marks, b);
    ChildrenDescribe(paths, leaves, b.directories, children);
  }

  /** The first paths are distinct, and these are they. */
  ghost predicate LeavesOf(paths: seq<Parts>, i: nat, leaves: set<Parts>) {
    i <= |paths| && Distinct(paths[..i]) && forall p :: p in leaves <==> p in paths[..i]
  }

  lemma LeavesGrow(paths: seq<Parts>, i: nat, leaves: set<Parts>)
    requires i < |paths| && LeavesOf(paths, i, leaves) && paths[i] !in leaves
    ensures LeavesOf(paths, i + 1, leaves + {paths[i]})
  {
    assert paths[..i + 1] == paths[..i] + [paths[i]];
  }

  lemma Repeated(paths: seq<Parts>, i: nat, leaves: set<Parts>)
    requires i < |paths| && LeavesOf(paths, i, leaves) && paths[i] in leaves
    ensures !Distinct(paths)
  {
    assert paths[i] in paths[..i];
  }

  /** Recorded marks are those of the paths, and no two of them share a key. */
  lemma MarksDescribe(fold: Fold, paths: seq<Parts>, marks: set<Mark>, b: Books)
    requires Kept(fold, paths, |paths|, 0, marks, b)
    ensures Compatible(fold, paths) && NodesOf(paths, b.nodes)
    ensures forall d :: d in b.directories <==> d == [] || Marked(paths, Mark(d, Directory))
  {
    assert paths[..|paths|] == paths;
    assert forall m :: m in marks <==> Marked(paths, m);
    forall m, n | Marked(paths, m) && Marked(paths, n) && fold(m.node) == fold(n.node)
      ensures m == n
    {
      assert m in marks && n in marks;
      assert RecordedAs(fold, m, b.normalized, b.nodes) && RecordedAs(fold, n, b.normalized, b.nodes);
    }
    forall n, k
      ensures Has(b.nodes, n, k) <==> Marked(paths, Mark(n, k))
    {
      if Marked(paths, Mark(n, k)) {
        assert Mark(n, k) in marks;
        assert RecordedAs(fold, Mark(n, k), b.normalized, b.nodes);
      }
    }
  }

  lemma LeavesApart(paths: seq<Parts>, leaves: set<Parts>, directories: set<Parts>)
    requires ValidPaths(paths) && PrefixFree(paths) && forall p :: p in leaves <==> p in paths
    requires forall d :: d in directories <==> d == [] || Marked(paths, Mark(d, Directory))
    ensures [] !in leaves && directories !! leaves
  {
    forall d | d in directories && d in leaves
      ensures false
    {
      KindsAgree(paths, d);
    }
  }

  lemma ChildrenDescribe(
      paths: seq<Parts>, leaves: set<Parts>, directories: set<Parts>, children: map<Parts, map<string, Kind>>)
    requires ChildrenOf(children, directories - {[]}, leaves) && forall p :: p in leaves <==> p in paths
    requires forall d :: d in directories <==> d == [] || Marked(paths, Mark(d, Directory))
    ensures forall d, name, k :: HasChild(children, d, name, k) <==> Marked(paths, Mark(d + [name], k))
  {
  }

  // ----- input order -----

  lemma SameElements(a: seq<Parts>, b: seq<Parts>, p: Parts)
    requires multiset(a) == multiset(b)
    ensures p in a <==> p in b
  {
    assert p in a <==> p in multiset(a);
    assert p in b <==> p in multiset(b);
  }

  lemma {:induction false} DistinctByCount(a: seq<Parts>)
    ensures Distinct(a) <==> forall p :: multiset(a)[p] <= 1
  {
    if a != [] {
      var (front, last) := (a[..|a| - 1], a[|a| - 1]);
      assert a == front + [last];
      DistinctByCount(front);
      assert multiset(a) == multiset(front) + multiset{last};
      assert last in front <==> multiset(front)[last] >= 1;
      if Distinct(front) && last !in front {
        forall p
          ensures multiset(a)[p] <= 1
        {
          assert multiset(front)[p] <= 1;
        }
        assert Distinct(a);
      }
      if last in front {
        assert multiset(a)[last] >= 2;
        assert !Distinct(a);
      }
      if !Distinct(front) {
        var p :| multiset(front)[p] > 1;
        assert multiset(a)[p] > 1;
        assert forall i | 0 <= i < |front| :: a[i] == front[i];
      }
    }
  }

  /** Neither success nor the tree depends on the order of the inventory. */
  lemma OrderDoesNotMatter(fold: Fold, a: seq<Parts>, b: seq<Parts>)
    requires multiset(a) == multiset(b)
    ensures Clean(fold, a) <==> Clean(fold, b)
    ensures forall m :: Marked(a, m) <==> Marked(b, m)
  {
    forall p
      ensures p in a <==> p in b
    {
      SameElements(a, b, p);
    }
    DistinctByCount(a);
    DistinctByCount(b);
    assert forall n :: IsNode(a, n) <==> IsNode(b, n);
  }

  /** A tree that describes an inventory is the only one with those nodes, whatever the order. */
  lemma OneTree(a: seq<Parts>, b: seq<Parts>, s: Tree, t: Tree)
    requires (forall m :: Marked(a, m) <==> Marked(b, m)) && (forall p :: p in a <==> p in b)
    requires Describes(a, s) && Describes(b, t)
    ensures s.leaves == t.leaves && s.directories == t.directories && s.nodes == t.nodes
    ensures forall d, name, k :: HasChild(s.children, d, name, k) <==> HasChild(t.children, d, name, k)
  {
    forall n
      ensures n in s.nodes <==> n in t.nodes
      ensures n in s.nodes ==> s.nodes[n] == t.nodes[n]
    {
      if n in s.nodes { assert Has(s.nodes, n, s.nodes[n]) && Marked(b, Mark(n, s.nodes[n])) && Has(t.nodes, n, s.nodes[n]); }
      if n in t.nodes { assert Has(t.nodes, n, t.nodes[n]) && Marked(a, Mark(n, t.nodes[n])) && Has(s.nodes, n, t.nodes[n]); }
    }
  }
}
