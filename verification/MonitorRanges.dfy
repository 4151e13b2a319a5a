/** Child ranges recomputed from scratch, and the checker that compares them with the supplied ones. */
module MonitorRanges {
  import opened Monitor

  /** One child's block: its start, only samples inside, its end, and no other child. */
  predicate RangeAt(os: seq<Observation>, r: ChildRange) {
    && r.first < r.last < |os|
    && os[r.first].phase == ChildStart && os[r.last].phase == ChildEnd
    && (forall i | r.first < i < r.last :: os[i].phase == ChildSample)
    && (forall i | r.first <= i <= r.last :: os[i].child == r.child)
  }

  predicate Inside(r: ChildRange, i: nat) { r.first <= i <= r.last }

  predicate Ordered(rs: seq<ChildRange>) {
    forall j, k | 0 <= j < k < |rs| :: rs[j].last < rs[k].first
  }

  /** A child's observation lies inside one of the ranges. */
  ghost predicate Covered(os: seq<Observation>, rs: seq<ChildRange>, i: nat)
    requires i < |os|
  {
    IsChildPhase(os[i].phase) ==> exists k :: 0 <= k < |rs| && Inside(rs[k], i)
  }

  /** Ordered blocks before `start`, and from `start` on the beginning of one more block. */
  ghost predicate Blocks(os: seq<Observation>, rs: seq<ChildRange>, start: nat) {
    && start <= |os|
    && (forall k | 0 <= k < |rs| :: RangeAt(os, rs[k]) && rs[k].last < start)
    && Ordered(rs)
    && (forall i: nat | i < start :: Covered(os, rs, i))
    && (start < |os| ==> os[start].phase == ChildStart)
    && (forall i | start < i < |os| :: os[i].phase == ChildSample)
    && (forall i | start <= i < |os| :: os[i].child == os[start].child)
  }

  predicate DistinctChildren(rs: seq<ChildRange>) {
    forall j, k | 0 <= j < k < |rs| :: rs[j].child != rs[k].child
  }

  /** The supplied ranges are exactly the children's blocks. */
  ghost predicate Partition(os: seq<Observation>, rs: seq<ChildRange>) {
    Blocks(os, rs, |os|) && DistinctChildren(rs)
  }

  // ----- blocks of a shorter trace -----

  lemma {:induction false} RangeShrinks(os: seq<Observation>, r: ChildRange, n: nat)
    requires r.last < n <= |os|
    ensures RangeAt(os, r) <==> RangeAt(os[..n], r)
  {
    var p := os[..n];
    forall i | 0 <= i < n ensures p[i] == os[i] {}
  }

  /** The block that holds the last observation is the last block. */
  lemma {:induction false} LastInside(os: seq<Observation>, rs: seq<ChildRange>, start: nat)
    requires os != [] && Blocks(os, rs, start) && os[|os| - 1].phase == ChildEnd
    ensures rs != [] && rs[|rs| - 1].last == |os| - 1 && RangeAt(os, rs[|rs| - 1])
  {
    var n := |os| - 1;
    assert start == |os|;
    assert Covered(os, rs, n);
    var k :| 0 <= k < |rs| && Inside(rs[k], n);
    assert RangeAt(os, rs[k]) && RangeAt(os, rs[|rs| - 1]);
  }

  /** A trace that ends with a child's end has that child's block last. */
  lemma {:induction false} LastBlock(os: seq<Observation>, rs: seq<ChildRange>, start: nat)
    requires os != [] && Blocks(os, rs, start) && os[|os| - 1].phase == ChildEnd
    ensures rs != []
    ensures rs[|rs| - 1] == ChildRange(os[|os| - 1].child, StartOf(os, os[|os| - 1].child), |os| - 1)
  {
    LastInside(os, rs, start);
    BlockStart(os, rs[|rs| - 1]);
  }

  /** The latest start of a block's child is where a final block begins. */
  lemma {:induction false} BlockStart(os: seq<Observation>, r: ChildRange)
    requires RangeAt(os, r) && r.last == |os| - 1
    ensures r.child == os[|os| - 1].child && r.first == StartOf(os, r.child)
  {
    StartIsLatest(os, r.child);
    var i := StartOf(os, r.child);
    assert IsStart(os[r.first], r.child);
    assert r.first <= i <= r.last && os[i].phase == ChildStart;
  }

  lemma {:induction false} EndShrinks(os: seq<Observation>, rs: seq<ChildRange>, start: nat)
    requires os != [] && Blocks(os, rs, start) && os[|os| - 1].phase == ChildEnd && rs != []
    requires rs[|rs| - 1].last == |os| - 1
    ensures Blocks(os[..|os| - 1], rs[..|rs| - 1], rs[|rs| - 1].first)
  {
    var n := |os| - 1;
    var (p, ps, s) := (os[..n], rs[..|rs| - 1], rs[|rs| - 1].first);
    assert RangeAt(os, rs[|rs| - 1]);
    forall k | 0 <= k < |ps|
      ensures RangeAt(p, ps[k]) && ps[k].last < s
    {
      RangeShrinks(os, rs[k], n);
    }
    forall i: nat | i < s
      ensures Covered(p, ps, i)
    {
      assert Covered(os, rs, i);
      if IsChildPhase(os[i].phase) {
        var j :| 0 <= j < |rs| && Inside(rs[j], i);
        assert Inside(ps[j], i);
      }
    }
  }

  lemma {:induction false} OtherShrinks(os: seq<Observation>, rs: seq<ChildRange>, start: nat)
    requires os != [] && Blocks(os, rs, start) && os[|os| - 1].phase != ChildEnd
    ensures Blocks(os[..|os| - 1], rs, if start < |os| then start else |os| - 1)
  {
    var n := |os| - 1;
    var (p, s) := (os[..n], if start <= n then start else n);
    forall k | 0 <= k < |rs|
      ensures RangeAt(p, rs[k]) && rs[k].last < s
    {
      assert RangeAt(os, rs[k]);
      RangeShrinks(os, rs[k], n);
    }
    forall i: nat | i < s
      ensures Covered(p, rs, i)
    {
      assert Covered(os, rs, i);
    }
  }

  lemma {:induction false} NoBlocksInNothing(os: seq<Observation>, rs: seq<ChildRange>, start: nat)
    requires Blocks(os, rs, start)
    ensures rs != [] ==> os != []
  {
    if rs != [] {
      var r := rs[0];
      assert r.last < start;
    }
  }

  /** Blocks are determined by the observations. */
  lemma {:induction false} BlocksAreRanges(os: seq<Observation>, rs: seq<ChildRange>, start: nat)
    requires Blocks(os, rs, start)
    ensures rs == RangesOf(os)
    decreases |os|
  {
    if os == [] {
      NoBlocksInNothing(os, rs, start);
    } else if os[|os| - 1].phase == ChildEnd {
      LastBlock(os, rs, start);
      EndShrinks(os, rs, start);
      BlocksAreRanges(os[..|os| - 1], rs[..|rs| - 1], rs[|rs| - 1].first);
      assert rs == rs[..|rs| - 1] + [rs[|rs| - 1]];
    } else {
      OtherShrinks(os, rs, start);
      BlocksAreRanges(os[..|os| - 1], rs, if start < |os| then start else |os| - 1);
    }
  }

  // ----- the blocks of a prefix -----

  function ChildrenOf(rs: seq<ChildRange>): seq<string> { seq(|rs|, i requires 0 <= i < |rs| => rs[i].child) }

  predicate IsOpen(os: seq<Observation>) {
    os != [] && (os[|os| - 1].phase.ChildStart? || os[|os| - 1].phase.ChildSample?)
  }

  /** Where the open block of a prefix starts; past the end if none is open. */
  function OpenAt(os: seq<Observation>): nat {
    if IsOpen(os) then StartOf(os, os[|os| - 1].child) else |os|
  }

  ghost predicate BlocksFit(os: seq<Observation>) {
    && Blocks(os, RangesOf(os), OpenAt(os))
    && (IsOpen(os) ==> OpenAt(os) < |os|)
    && Starts(os) == ChildrenOf(RangesOf(os)) + if IsOpen(os) then [os[|os| - 1].child] else []
  }

  lemma {:induction false} PrefixShrinks(os: seq<Observation>)
    requires Prefix(os) && os != []
    ensures Prefix(os[..|os| - 1])
  {
    var p := os[..|os| - 1];
    assert Distinct(Starts(p)) by {
      forall i, j | 0 <= i < j < |Starts(p)| ensures Starts(p)[i] != Starts(p)[j] {
        assert Starts(os)[i] == Starts(p)[i] && Starts(os)[j] == Starts(p)[j];
      }
    }
    forall i: nat | i < |p| ensures LabelAt(p, i) { assert LabelAt(os, i); }
    forall i: nat | i + 1 < |p| ensures NextOk(p, i) { assert NextOk(os, i); }
  }

  lemma {:induction false} StartAdded(os: seq<Observation>)
    requires Prefix(os) && os != [] && os[|os| - 1].phase == ChildStart && BlocksFit(os[..|os| - 1])
    ensures BlocksFit(os)
  {
    var n := |os| - 1;
    var p := os[..n];
    if n > 0 { assert NextOk(os, n - 1); }
    var rs := RangesOf(os);
    assert OpenAt(os) == n && OpenAt(p) == n;
    forall k | 0 <= k < |rs| ensures RangeAt(os, rs[k]) { RangeShrinks(os, rs[k], n); }
    forall i: nat | i < n ensures Covered(os, rs, i) { assert Covered(p, rs, i); }
  }

  /** A sample or an end belongs to the block that is open before it. */
  lemma {:induction false} SameStart(os: seq<Observation>)
    requires Prefix(os) && os != [] && os[|os| - 1].phase in {ChildSample, ChildEnd} && BlocksFit(os[..|os| - 1])
    ensures IsOpen(os[..|os| - 1]) && StartOf(os, os[|os| - 1].child) == OpenAt(os[..|os| - 1]) < |os| - 1
    ensures forall i | OpenAt(os[..|os| - 1]) <= i < |os| :: os[i].child == os[|os| - 1].child
  {
    var n := |os| - 1;
    assert n > 0 && NextOk(os, n - 1);
    var p := os[..n];
    assert p[n - 1].child == os[n].child;
  }

  lemma {:induction false} SampleAdded(os: seq<Observation>)
    requires Prefix(os) && os != [] && os[|os| - 1].phase == ChildSample && BlocksFit(os[..|os| - 1])
    ensures BlocksFit(os)
  {
    var n := |os| - 1;
    var p := os[..n];
    SameStart(os);
    var (rs, s) := (RangesOf(os), OpenAt(os));
    assert rs == RangesOf(p);
    forall k | 0 <= k < |rs| ensures RangeAt(os, rs[k]) { RangeShrinks(os, rs[k], n); }
    forall i: nat | i < s ensures Covered(os, rs, i) { assert Covered(p, rs, i); }
  }

  lemma {:induction false} EndCovers(os: seq<Observation>, ps: seq<ChildRange>, s: nat, r: ChildRange)
    requires os != [] && r.first == s <= r.last == |os| - 1
    requires Blocks(os[..|os| - 1], ps, s)
    ensures forall i: nat | i < |os| :: Covered(os, ps + [r], i)
  {
    var p := os[..|os| - 1];
    var rs := ps + [r];
    forall i: nat | i < |os|
      ensures Covered(os, rs, i)
    {
      if i < s {
        assert Covered(p, ps, i);
        if IsChildPhase(os[i].phase) {
          var j :| 0 <= j < |ps| && Inside(ps[j], i);
          assert Inside(rs[j], i);
        }
      } else {
        assert Inside(rs[|ps|], i);
      }
    }
  }

  /** Closing the open block. */
  lemma {:induction false} BlockCloses(os: seq<Observation>, ps: seq<ChildRange>, s: nat)
    requires os != [] && Blocks(os[..|os| - 1], ps, s) && s < |os| - 1
    requires os[|os| - 1].phase == ChildEnd && os[|os| - 1].child == os[s].child
    ensures Blocks(os, ps + [ChildRange(os[s].child, s, |os| - 1)], |os|)
  {
    var n := |os| - 1;
    var r := ChildRange(os[s].child, s, n);
    var rs := ps + [r];
    assert RangeAt(os, r);
    forall k | 0 <= k < |rs|
      ensures RangeAt(os, rs[k])
    {
      if k < |ps| { RangeShrinks(os, ps[k], n); }
    }
    EndCovers(os, ps, s, r);
  }

  lemma {:induction false} EndAdded(os: seq<Observation>)
    requires Prefix(os) && os != [] && os[|os| - 1].phase == ChildEnd && BlocksFit(os[..|os| - 1])
    ensures BlocksFit(os)
  {
    var n := |os| - 1;
    var p := os[..n];
    SameStart(os);
    var (ps, s) := (RangesOf(p), OpenAt(p));
    assert os[s].child == os[n].child;
    BlockCloses(os, ps, s);
    EndClosesChild(os, ps, s);
    FitsClosed(os, ps + [ChildRange(os[s].child, s, n)]);
  }

  lemma {:induction false} FitsClosed(os: seq<Observation>, rs: seq<ChildRange>)
    requires Blocks(os, rs, |os|) && !IsOpen(os) && RangesOf(os) == rs && Starts(os) == ChildrenOf(rs)
    ensures BlocksFit(os)
  {
    assert ChildrenOf(rs) + [] == ChildrenOf(rs);
  }

  lemma {:induction false} EndClosesChild(os: seq<Observation>, ps: seq<ChildRange>, s: nat)
    requires os != [] && os[|os| - 1].phase == ChildEnd && IsOpen(os[..|os| - 1])
    requires os[|os| - 2].child == os[|os| - 1].child && s == StartOf(os, os[|os| - 1].child)
    requires ps == RangesOf(os[..|os| - 1])
    requires Starts(os[..|os| - 1]) == ChildrenOf(ps) + [os[|os| - 2].child]
    ensures RangesOf(os) == ps + [ChildRange(os[|os| - 1].child, s, |os| - 1)]
    ensures Starts(os) == ChildrenOf(RangesOf(os))
  {
    var r := ChildRange(os[|os| - 1].child, s, |os| - 1);
    assert ChildrenOf(ps + [r]) == ChildrenOf(ps) + [r.child];
  }

  lemma {:induction false} HostAdded(os: seq<Observation>)
    requires Prefix(os) && os != [] && !IsChildPhase(os[|os| - 1].phase) && BlocksFit(os[..|os| - 1])
    ensures BlocksFit(os)
  {
    var n := |os| - 1;
    var p := os[..n];
    if n > 0 { assert NextOk(os, n - 1); }
    var rs := RangesOf(os);
    forall k | 0 <= k < |rs| ensures RangeAt(os, rs[k]) { RangeShrinks(os, rs[k], n); }
    forall i: nat | i < |os|
      ensures Covered(os, rs, i)
    {
      if i < n { assert Covered(p, rs, i); }
    }
  }

  lemma {:induction false} PrefixFits(os: seq<Observation>)
    requires Prefix(os)
    ensures BlocksFit(os)
    decreases |os|
  {
    if os != [] {
      PrefixShrinks(os);
      PrefixFits(os[..|os| - 1]);
      match os[|os| - 1].phase
      case ChildStart => StartAdded(os);
      case ChildSample => SampleAdded(os);
      case ChildEnd => EndAdded(os);
      case _ => HostAdded(os);
    }
  }

  /** The ranges of a closed prefix are its children's blocks. */
  lemma {:induction false} PrefixPartition(os: seq<Observation>)
    requires Prefix(os) && !IsOpen(os)
    ensures Partition(os, RangesOf(os))
  {
    PrefixFits(os);
    var rs := RangesOf(os);
    forall j, k | 0 <= j < k < |rs|
      ensures rs[j].child != rs[k].child
    {
      assert Starts(os)[j] != Starts(os)[k];
    }
  }

  // ----- the checker -----

  predicate Owns(os: seq<Observation>, i: nat, c: string)
    requires i < |os|
  {
    IsChildPhase(os[i].phase) && os[i].child == c
  }

  /** The observations of one child, ascending. */
  function Indices(os: seq<Observation>, c: string): seq<nat>
    decreases |os|
  {
    if os == [] then []
    else
      var r := Indices(os[..|os| - 1], c);
      if Owns(os, |os| - 1, c) then r + [|os| - 1] else r
  }

  lemma {:induction false} IndicesAscend(os: seq<Observation>, c: string)
    ensures forall k | 0 <= k < |Indices(os, c)| :: Indices(os, c)[k] < |os| && Owns(os, Indices(os, c)[k], c)
    ensures forall j, k | 0 <= j < k < |Indices(os, c)| :: Indices(os, c)[j] < Indices(os, c)[k]
    ensures forall i | 0 <= i < |os| :: Owns(os, i, c) ==> i in Indices(os, c)
    decreases |os|
  {
    if os != [] {
      var p := os[..|os| - 1];
      IndicesAscend(p, c);
      forall i | 0 <= i < |os| && Owns(os, i, c)
        ensures i in Indices(os, c)
      {
        if i < |p| { assert Owns(p, i, c); }
      }
    }
  }

  function Interval(first: nat, last: nat): (s: seq<nat>)
    requires first <= last
    ensures |s| == last - first + 1 && forall i | 0 <= i < |s| :: s[i] == first + i
  {
    seq(last - first + 1, i => first + i)
  }

  /** A child's observations are one block exactly when the checker's three tests pass. */
  predicate BlockTests(os: seq<Observation>, l: seq<nat>)
    requires l != [] && forall k | 0 <= k < |l| :: l[k] < |os|
  {
    && l[0] <= l[|l| - 1] && l == Interval(l[0], l[|l| - 1])
    && os[l[0]].phase == ChildStart && os[l[|l| - 1]].phase == ChildEnd
    && forall k | 0 < k < |l| - 1 :: os[l[k]].phase == ChildSample
  }

  lemma {:induction false} TestsMeanRange(os: seq<Observation>, c: string)
    requires Indices(os, c) != []
    requires forall k | 0 <= k < |Indices(os, c)| :: Indices(os, c)[k] < |os|
    requires BlockTests(os, Indices(os, c))
    ensures
      var l := Indices(os, c);
      RangeAt(os, ChildRange(c, l[0], l[|l| - 1])) && forall i | 0 <= i < |os| && Owns(os, i, c) :: l[0] <= i <= l[|l| - 1]
  {
    var l := Indices(os, c);
    IndicesAscend(os, c);
    var (a, b) := (l[0], l[|l| - 1]);
    forall i | a <= i <= b
      ensures os[i].child == c && (a < i < b ==> os[i].phase == ChildSample)
    {
      assert l[i - a] == i;
    }
  }

  /** In a partition, every observation of a child lies in one and the same range. */
  lemma {:induction false} OwnRange(os: seq<Observation>, rs: seq<ChildRange>, c: string) returns (r: ChildRange)
    requires Partition(os, rs) && Indices(os, c) != []
    ensures RangeAt(os, r) && r.child == c
    ensures forall i | i in Indices(os, c) :: Inside(r, i)
  {
    var l := Indices(os, c);
    IndicesAscend(os, c);
    assert Covered(os, rs, l[0]);
    var k :| 0 <= k < |rs| && Inside(rs[k], l[0]);
    r := rs[k];
    forall i | i in l
      ensures Inside(r, i)
    {
      assert Covered(os, rs, i);
      var j :| 0 <= j < |rs| && Inside(rs[j], i);
      assert rs[j].child == c;
    }
  }

  /** Then the child's observations are exactly the range, and the tests pass. */
  lemma {:induction false} RangeMeansTests(os: seq<Observation>, rs: seq<ChildRange>, c: string)
    requires Partition(os, rs) && Indices(os, c) != []
    ensures forall k | 0 <= k < |Indices(os, c)| :: Indices(os, c)[k] < |os|
    ensures BlockTests(os, Indices(os, c))
  {
    var r := OwnRange(os, rs, c);
    var l := Indices(os, c);
    IndicesAscend(os, c);
    forall i | r.first <= i <= r.last
      ensures i in l
    {
      assert Owns(os, i, c);
    }
    AscendingFills(l, r.first, r.last);
  }

  /** An ascending list that holds all of an interval and nothing else is the interval. */
  lemma {:induction false} AscendingFills(l: seq<nat>, a: nat, b: nat)
    requires a <= b && forall j, k | 0 <= j < k < |l| :: l[j] < l[k]
    requires forall i | a <= i <= b :: i in l
    requires forall i | i in l :: a <= i <= b
    ensures l == Interval(a, b)
    decreases b - a
  {
    assert a in l && b in l;
    var t := |l| - 1;
    assert l[t] == b by {
      var k :| 0 <= k < |l| && l[k] == b;
      assert l[t] in l;
    }
    var m := l[..t];
    if a == b {
      assert t == 0 by { assert l[0] in l; }
    } else {
      forall i | a <= i <= b - 1
        ensures i in m
      {
        assert i in l;
        var k :| 0 <= k < |l| && l[k] == i;
        assert m[k] == i;
      }
      forall i | i in m
        ensures a <= i <= b - 1
      {
        var k :| 0 <= k < |m| && m[k] == i;
        assert l[k] == i && i in l;
      }
      AscendingFills(m, a, b - 1);
    }
  }

  /** The insertion-ordered dictionary of child observations. */
  ghost predicate Groups(os: seq<Observation>, keys: seq<string>, groups: map<string, seq<nat>>) {
    && (forall c :: c in groups <==> c in keys)
    && (forall c :: Grouped(os, groups, c))
    && (forall j, k | 0 <= j < k < |keys| :: FirstSeen(keys, groups, j, k))
  }

  predicate Grouped(os: seq<Observation>, groups: map<string, seq<nat>>, c: string) {
    if c in groups then groups[c] == Indices(os, c) && groups[c] != [] else Indices(os, c) == []
  }

  /** The keys differ, and come in the order of their first observations. */
  predicate FirstSeen(keys: seq<string>, groups: map<string, seq<nat>>, j: nat, k: nat)
    requires j < k < |keys|
  {
    keys[j] != keys[k] && keys[j] in groups && keys[k] in groups && groups[keys[j]] != [] && groups[keys[k]] != [] &&
    groups[keys[j]][0] < groups[keys[k]][0]
  }

  method GroupByChild(os: seq<Observation>) returns (keys: seq<string>, groups: map<string, seq<nat>>)
    ensures Groups(os, keys, groups)
  {
    keys, groups := [], map[];
    for i := 0 to |os|
      invariant Groups(os[..i], keys, groups)
    {
      assert os[..i + 1][..i] == os[..i];
      var c := os[i].child;
      if !IsChildPhase(os[i].phase) {
        GroupsSkip(os[..i + 1], keys, groups);
      } else if c in groups {
        GroupsExtend(os[..i + 1], keys, groups);
        groups := groups[c := groups[c] + [i]];
      } else {
        GroupsAdd(os[..i + 1], keys, groups);
        keys, groups := keys + [c], groups[c := [i]];
      }
    }
    assert os[..|os|] == os;
  }

  lemma IndicesGrow(os: seq<Observation>, c: string)
    requires os != []
    ensures var n := |os| - 1;
            Indices(os, c) == if Owns(os, n, c) then Indices(os[..n], c) + [n] else Indices(os[..n], c)
  {
  }

  lemma GroupsSkip(os: seq<Observation>, keys: seq<string>, groups: map<string, seq<nat>>)
    requires os != [] && Groups(os[..|os| - 1], keys, groups) && !IsChildPhase(os[|os| - 1].phase)
    ensures Groups(os, keys, groups)
  {
    forall d
      ensures Grouped(os, groups, d)
    {
      IndicesGrow(os, d);
      assert Grouped(os[..|os| - 1], groups, d);
    }
  }

  lemma GroupsExtend(os: seq<Observation>, keys: seq<string>, groups: map<string, seq<nat>>)
    requires os != [] && Groups(os[..|os| - 1], keys, groups) && IsChildPhase(os[|os| - 1].phase)
    requires os[|os| - 1].child in groups
    ensures var (n, c) := (|os| - 1, os[|os| - 1].child); Groups(os, keys, groups[c := groups[c] + [n]])
  {
    var (n, c) := (|os| - 1, os[|os| - 1].child);
    var after := groups[c := groups[c] + [n]];
    forall d
      ensures Grouped(os, after, d)
    {
      IndicesGrow(os, d);
      assert Grouped(os[..n], groups, d);
    }
    assert Grouped(os[..n], groups, c);
    forall j, k | 0 <= j < k < |keys|
      ensures FirstSeen(keys, after, j, k)
    {
      assert FirstSeen(keys, groups, j, k);
    }
  }

  lemma GroupsAdd(os: seq<Observation>, keys: seq<string>, groups: map<string, seq<nat>>)
    requires os != [] && Groups(os[..|os| - 1], keys, groups) && IsChildPhase(os[|os| - 1].phase)
    requires os[|os| - 1].child !in groups
    ensures var (n, c) := (|os| - 1, os[|os| - 1].child); Groups(os, keys + [c], groups[c := [n]])
  {
    var (n, c) := (|os| - 1, os[|os| - 1].child);
    var (more, after) := (keys + [c], groups[c := [n]]);
    forall d
      ensures Grouped(os, after, d)
    {
      IndicesGrow(os, d);
      assert Grouped(os[..n], groups, d);
    }
    forall j, k | 0 <= j < k < |more|
      ensures FirstSeen(more, after, j, k)
    {
      assert keys[j] in groups && Grouped(os[..n], groups, keys[j]);
      IndicesAscend(os[..n], keys[j]);
      if k < |keys| { assert FirstSeen(keys, groups, j, k); }
    }
  }

  predicate RangeOfKey(groups: map<string, seq<nat>>, c: string, r: ChildRange) {
    c in groups && groups[c] != [] && r == ChildRange(c, groups[c][0], groups[c][|groups[c]| - 1])
  }

  predicate RangesUpTo(keys: seq<string>, groups: map<string, seq<nat>>, rs: seq<ChildRange>, n: nat) {
    n <= |keys| && |rs| == n && forall k | 0 <= k < n :: RangeOfKey(groups, keys[k], rs[k])
  }

  predicate RangesOfGroups(keys: seq<string>, groups: map<string, seq<nat>>, rs: seq<ChildRange>) {
    RangesUpTo(keys, groups, rs, |keys|)
  }

  /** The checker's tests pass for one child. */
  predicate Tested(os: seq<Observation>, c: string) {
    var l := Indices(os, c);
    l != [] && (forall k | 0 <= k < |l| :: l[k] < |os|) && BlockTests(os, l)
  }

  predicate AllTests(os: seq<Observation>, keys: seq<string>) {
    forall k | 0 <= k < |keys| :: Tested(os, keys[k])
  }

  lemma {:induction false} PartitionPassesTests(
      os: seq<Observation>, keys: seq<string>, groups: map<string, seq<nat>>, rs: seq<ChildRange>)
    requires Groups(os, keys, groups) && Partition(os, rs)
    ensures AllTests(os, keys)
  {
    forall k | 0 <= k < |keys|
      ensures Tested(os, keys[k])
    {
      assert keys[k] in groups && Grouped(os, groups, keys[k]);
      RangeMeansTests(os, rs, keys[k]);
    }
  }

  lemma {:induction false} KeyRange(
      os: seq<Observation>, keys: seq<string>, groups: map<string, seq<nat>>, rs: seq<ChildRange>, k: nat)
    requires Groups(os, keys, groups) && AllTests(os, keys) && RangesOfGroups(keys, groups, rs) && k < |rs|
    ensures RangeAt(os, rs[k]) && rs[k].child == keys[k] && rs[k].first == Indices(os, keys[k])[0]
    ensures Grouped(os, groups, keys[k]) && keys[k] in groups
  {
    assert RangeOfKey(groups, keys[k], rs[k]) && Grouped(os, groups, keys[k]);
    TestsMeanRange(os, keys[k]);
  }

  /** The ranges of tested groups are a partition: the dictionary order is the order of first observations. */
  lemma {:induction false} GroupsPartition(
      os: seq<Observation>, keys: seq<string>, groups: map<string, seq<nat>>, rs: seq<ChildRange>)
    requires Groups(os, keys, groups) && AllTests(os, keys) && RangesOfGroups(keys, groups, rs)
    ensures Partition(os, rs)
  {
    forall k | 0 <= k < |rs|
      ensures RangeAt(os, rs[k])
    {
      KeyRange(os, keys, groups, rs, k);
    }
    forall j, k | 0 <= j < k < |rs|
      ensures rs[j].last < rs[k].first && rs[j].child != rs[k].child
    {
      KeyRange(os, keys, groups, rs, j);
      KeyRange(os, keys, groups, rs, k);
      assert FirstSeen(keys, groups, j, k);
      assert os[rs[k].first].child == keys[k];
    }
    forall i: nat | i < |os|
      ensures Covered(os, rs, i)
    {
      if IsChildPhase(os[i].phase) {
        var c := os[i].child;
        IndicesAscend(os, c);
        assert Owns(os, i, c);
        assert Grouped(os, groups, c);
        assert c in keys;
        var k :| 0 <= k < |keys| && keys[k] == c;
        KeyRange(os, keys, groups, rs, k);
        TestsMeanRange(os, c);
        assert Inside(rs[k], i);
      }
    }
  }

  predicate LabelsOk(os: seq<Observation>) {
    forall i | 0 <= i < |os| :: IsChildPhase(os[i].phase) <==> os[i].child != ""
  }

  predicate Dense(os: seq<Observation>) { forall i | 0 <= i < |os| :: os[i].ordinal == i }

  /** A key's indices, on which the checker's tests decide. */
  function KeyTests(os: seq<Observation>, keys: seq<string>, groups: map<string, seq<nat>>, n: nat): (l: seq<nat>)
    requires Groups(os, keys, groups) && n < |keys|
    ensures keys[n] in groups && l == groups[keys[n]] && l != [] && (forall k | 0 <= k < |l| :: l[k] < |os|)
    ensures Tested(os, keys[n]) <==> BlockTests(os, l)
  {
    IndicesAscend(os, keys[n]);
    assert keys[n] in groups && Grouped(os, groups, keys[n]);
    groups[keys[n]]
  }

  method CheckBlocks(os: seq<Observation>, keys: seq<string>, groups: map<string, seq<nat>>)
      returns (ok: bool, actual: seq<ChildRange>)
    requires Groups(os, keys, groups)
    ensures ok <==> AllTests(os, keys)
    ensures ok ==> RangesOfGroups(keys, groups, actual)
  {
    actual := [];
    for n := 0 to |keys|
      invariant TestedUpTo(os, keys, n) && RangesUpTo(keys, groups, actual, n)
    {
      var l := KeyTests(os, keys, groups, n);
      if !BlockTests(os, l) { return false, actual; }
      RangesGrow(keys, groups, actual, n);
      actual := actual + [ChildRange(keys[n], l[0], l[|l| - 1])];
    }
    return true, actual;
  }

  predicate TestedUpTo(os: seq<Observation>, keys: seq<string>, n: nat) {
    n <= |keys| && forall k | 0 <= k < n :: Tested(os, keys[k])
  }

  lemma RangesGrow(keys: seq<string>, groups: map<string, seq<nat>>, rs: seq<ChildRange>, n: nat)
    requires RangesUpTo(keys, groups, rs, n) && n < |keys| && keys[n] in groups && groups[keys[n]] != []
    ensures var l := groups[keys[n]];
            RangesUpTo(keys, groups, rs + [ChildRange(keys[n], l[0], l[|l| - 1])], n + 1)
  {
  }

  /**
   The from-scratch checker returns exactly when the observations are dense and labelled and the
   supplied ranges are the children's blocks. Its sort, overlap and coverage checks change nothing.
   */
  method ValidateChildRanges(os: seq<Observation>, rs: seq<ChildRange>) returns (ok: bool)
    ensures ok <==> os != [] && Dense(os) && LabelsOk(os) && Partition(os, rs)
  {
    if os == [] { return false; }
    for i := 0 to |os|
      invariant forall j | 0 <= j < i :: os[j].ordinal == j
    {
      if os[i].ordinal != i { return false; }
    }
    for i := 0 to |os|
      invariant forall j | 0 <= j < i :: IsChildPhase(os[j].phase) <==> os[j].child != ""
    {
      if IsChildPhase(os[i].phase) != (os[i].child != "") { return false; }
    }
    var keys, groups := GroupByChild(os);
    if Partition(os, rs) { PartitionPassesTests(os, keys, groups, rs); }
    var tested, actual := CheckBlocks(os, keys, groups);
    if !tested { return false; }
    GroupsPartition(os, keys, groups, actual);
    BlocksAreRanges(os, actual, |os|);
    if Partition(os, rs) { BlocksAreRanges(os, rs, |os|); }
    return rs == actual;
  }
}
