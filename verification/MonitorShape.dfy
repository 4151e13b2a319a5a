/** Complete traces in block form: pre-build, blocks separated by one between-children, post-run. */
module MonitorShape {
  import opened Monitor
  import opened MonitorRanges
  import opened MonitorReplay

  datatype Block = Block(child: string, samples: nat)

  type Mark = (Phase, string)

  function Marks(os: seq<Observation>): (ms: seq<Mark>)
    ensures |ms| == |os| && forall i | 0 <= i < |os| :: ms[i] == (os[i].phase, os[i].child)
  {
    seq(|os|, i requires 0 <= i < |os| => (os[i].phase, os[i].child))
  }

  function Samples(c: string, n: nat): (ms: seq<Mark>)
    ensures |ms| == n && forall i | 0 <= i < n :: ms[i] == (ChildSample, c)
  {
    seq(n, _ => (ChildSample, c))
  }

  /** The marks up to and including the last block. */
  function Joined(bs: seq<Block>): seq<Mark>
    decreases |bs|, 0
  {
    if bs == [] then [(PreBuild, "")]
    else
      var b := bs[|bs| - 1];
      Opened(bs[..|bs| - 1], b.child, b.samples) + [(ChildEnd, b.child)]
  }

  /** The marks up to and including the observation that must come before the next block. */
  function Lead(bs: seq<Block>): seq<Mark>
    decreases |bs|, 1
  {
    if bs == [] then Joined([]) else Joined(bs) + [(BetweenChildren, "")]
  }

  /** A block that is still open. */
  function Opened(bs: seq<Block>, c: string, n: nat): seq<Mark>
    decreases |bs|, 2
  {
    Lead(bs) + [(ChildStart, c)] + Samples(c, n)
  }

  function Word(bs: seq<Block>, tail: bool): seq<Mark> {
    (if tail then Lead(bs) else Joined(bs)) + [(PostRun, "")]
  }

  function ChildrenOf(bs: seq<Block>): (ids: seq<string>)
    ensures |ids| == |bs| && forall i | 0 <= i < |bs| :: ids[i] == bs[i].child
  {
    seq(|bs|, i requires 0 <= i < |bs| => bs[i].child)
  }

  // ----- every prefix is a beginning of a word -----

  datatype Parse = Parse(blocks: seq<Block>, samples: nat)

  predicate Parsed(os: seq<Observation>, r: Parse) {
    os != [] &&
    var o := os[|os| - 1];
    match o.phase
    case PreBuild => r.blocks == [] && Marks(os) == Joined([]) && Starts(os) == []
    case ChildStart | ChildSample =>
      Marks(os) == Opened(r.blocks, o.child, r.samples) && Starts(os) == ChildrenOf(r.blocks) + [o.child]
    case ChildEnd => r.blocks != [] && Marks(os) == Joined(r.blocks) && Starts(os) == ChildrenOf(r.blocks)
    case BetweenChildren => r.blocks != [] && Marks(os) == Lead(r.blocks) && Starts(os) == ChildrenOf(r.blocks)
    case PostRun =>
      r.blocks != [] && Marks(os) in {Word(r.blocks, false), Word(r.blocks, true)} && Starts(os) == ChildrenOf(r.blocks)
  }

  lemma {:induction false} ParseStep(p: seq<Observation>, o: Observation, r: Parse) returns (t: Parse)
    requires Parsed(p, r) && Neighbours(p[|p| - 1], o) && Labelled(o)
    ensures Parsed(p + [o], t)
  {
    var os := p + [o];
    assert os[..|os| - 1] == p && Marks(os) == Marks(p) + [(o.phase, o.child)];
    var c := p[|p| - 1].child;
    match o.phase
    case ChildStart =>
      t := Parse(r.blocks, 0);
    case ChildSample =>
      t := Parse(r.blocks, r.samples + 1);
      assert Samples(c, r.samples + 1) == Samples(c, r.samples) + [(ChildSample, c)];
    case ChildEnd =>
      var bs := r.blocks + [Block(c, r.samples)];
      t := Parse(bs, 0);
      assert bs[..|bs| - 1] == r.blocks;
      assert ChildrenOf(bs) == ChildrenOf(r.blocks) + [c];
    case _ =>
      t := r;
  }

  lemma {:induction false} ParsePrefix(os: seq<Observation>) returns (r: Parse)
    requires Prefix(os) && os != []
    ensures Parsed(os, r)
    decreases |os|
  {
    var n := |os| - 1;
    assert LabelAt(os, n);
    if n == 0 {
      r := Parse([], 0);
      assert Marks(os) == [(PreBuild, "")];
    } else {
      var p := os[..n];
      PrefixShrinks(os);
      var q := ParsePrefix(p);
      assert NextOk(os, n - 1) && p + [os[n]] == os;
      r := ParseStep(p, os[n], q);
    }
  }

  // ----- every word is a complete trace -----

  predicate LabelsAt(os: seq<Observation>) { forall i: nat | i < |os| :: LabelAt(os, i) }

  /** One more observation of a labelled trace. */
  lemma {:induction false} Extend(os: seq<Observation>, k: nat)
    requires k < |os| && LabelsAt(os) && Prefix(os[..k])
    requires if k == 0 then os[k].phase == PreBuild else Neighbours(os[k - 1], os[k])
    requires os[k].phase == ChildStart ==> os[k].child !in Starts(os[..k])
    ensures Prefix(os[..k + 1])
    ensures Starts(os[..k + 1]) == if os[k].phase == ChildStart then Starts(os[..k]) + [os[k].child] else Starts(os[..k])
  {
    assert os[..k + 1] == os[..k] + [os[k]];
    assert LabelAt(os, k);
    PrefixGrows(os[..k], os[k]);
  }

  lemma {:induction false} MarksOf(os: seq<Observation>, ms: seq<Mark>)
    requires ms <= Marks(os)
    ensures |ms| <= |os| && forall i | 0 <= i < |ms| :: (os[i].phase, os[i].child) == ms[i]
  {
    assert forall i | 0 <= i < |ms| :: ms[i] == Marks(os)[i];
  }

  lemma {:induction false} JoinedIsPrefix(os: seq<Observation>, bs: seq<Block>)
    requires LabelsAt(os) && Joined(bs) <= Marks(os) && Distinct(ChildrenOf(bs))
    ensures |Joined(bs)| > 0 && |Joined(bs)| <= |os| && Prefix(os[..|Joined(bs)|])
    ensures Starts(os[..|Joined(bs)|]) == ChildrenOf(bs)
    decreases |bs|, 1
  {
    MarksOf(os, Joined(bs));
    if bs == [] {
      Extend(os, 0);
      assert os[..0] == [];
    } else {
      var (rest, b) := (bs[..|bs| - 1], bs[|bs| - 1]);
      assert ChildrenOf(rest) == ChildrenOf(bs)[..|bs| - 1];
      OpenedIsPrefix(os, rest, b.child, b.samples);
      var k := |Opened(rest, b.child, b.samples)|;
      assert Joined(bs)[k] == (ChildEnd, b.child);
      Extend(os, k);
      assert ChildrenOf(bs) == ChildrenOf(rest) + [b.child];
    }
  }

  lemma {:induction false} LeadIsPrefix(os: seq<Observation>, bs: seq<Block>)
    requires LabelsAt(os) && Lead(bs) <= Marks(os) && Distinct(ChildrenOf(bs))
    ensures |Lead(bs)| > 0 && |Lead(bs)| <= |os| && Prefix(os[..|Lead(bs)|])
    ensures Starts(os[..|Lead(bs)|]) == ChildrenOf(bs)
    ensures os[|Lead(bs)| - 1].phase in {PreBuild, BetweenChildren}
    decreases |bs|, 2
  {
    MarksOf(os, Lead(bs));
    assert Joined(bs) <= Lead(bs);
    JoinedIsPrefix(os, bs);
    if bs != [] {
      var k := |Joined(bs)|;
      assert Lead(bs)[k] == (BetweenChildren, "");
      assert Lead(bs)[k - 1] == Joined(bs)[k - 1] && Joined(bs)[k - 1].0 == ChildEnd;
      Extend(os, k);
    }
  }

  lemma {:induction false} OpenedIsPrefix(os: seq<Observation>, bs: seq<Block>, c: string, n: nat)
    requires LabelsAt(os) && Opened(bs, c, n) <= Marks(os) && Distinct(ChildrenOf(bs) + [c])
    ensures |Opened(bs, c, n)| > 0 && |Opened(bs, c, n)| <= |os| && Prefix(os[..|Opened(bs, c, n)|])
    ensures Starts(os[..|Opened(bs, c, n)|]) == ChildrenOf(bs) + [c]
    ensures os[|Opened(bs, c, n)| - 1].phase in {ChildStart, ChildSample} && os[|Opened(bs, c, n)| - 1].child == c
    decreases |bs|, 3, n
  {
    MarksOf(os, Opened(bs, c, n));
    var k := |Opened(bs, c, n)| - 1;
    if n == 0 {
      assert Lead(bs) <= Opened(bs, c, 0);
      FreshStart(ChildrenOf(bs), c);
      LeadIsPrefix(os, bs);
      assert Opened(bs, c, 0)[k] == (ChildStart, c);
      assert c !in ChildrenOf(bs) by { assert forall i | 0 <= i < |bs| :: ChildrenOf(bs)[i] in IdSet(ChildrenOf(bs)); }
      Extend(os, k);
    } else {
      assert Samples(c, n) == Samples(c, n - 1) + [(ChildSample, c)];
      assert Opened(bs, c, n) == Opened(bs, c, n - 1) + [(ChildSample, c)];
      OpenedIsPrefix(os, bs, c, n - 1);
      Extend(os, k);
    }
  }

  /** Block form of a labelled trace. */
  ghost predicate InBlocks(os: seq<Observation>, bs: seq<Block>, tail: bool) {
    bs != [] && Marks(os) == Word(bs, tail) && Distinct(ChildrenOf(bs))
  }

  /**
   A labelled trace is a closed prefix exactly when it is pre-build, one or more
   start, samples, end blocks of distinct children separated by one between-children, an optional
   between-children, and post-run; its started children are then the blocks' children.
   */
  lemma {:induction false} ClosedIffBlocks(os: seq<Observation>)
    requires LabelsAt(os)
    ensures Prefix(os) && LastIs(os, {PostRun}) <==> exists bs, tail :: InBlocks(os, bs, tail)
    ensures forall bs, tail | InBlocks(os, bs, tail) :: Starts(os) == ChildrenOf(bs)
  {
    if Prefix(os) && LastIs(os, {PostRun}) {
      var r := ParsePrefix(os);
      assert InBlocks(os, r.blocks, false) || InBlocks(os, r.blocks, true);
    }
    forall bs, tail | InBlocks(os, bs, tail)
      ensures Prefix(os) && LastIs(os, {PostRun}) && Starts(os) == ChildrenOf(bs)
    {
      BlocksAreClosed(os, bs, tail);
    }
  }

  lemma {:induction false} BlocksAreClosed(os: seq<Observation>, bs: seq<Block>, tail: bool)
    requires LabelsAt(os) && InBlocks(os, bs, tail)
    ensures Prefix(os) && LastIs(os, {PostRun}) && Starts(os) == ChildrenOf(bs)
  {
    MarksOf(os, Word(bs, tail));
    var k := |os| - 1;
    if tail {
      assert Lead(bs) <= Marks(os);
      LeadIsPrefix(os, bs);
      assert Lead(bs)[k - 1] == (BetweenChildren, "") && Word(bs, tail)[k - 1] == Lead(bs)[k - 1];
    } else {
      assert Joined(bs) <= Marks(os);
      JoinedIsPrefix(os, bs);
      assert Joined(bs)[k - 1].0 == ChildEnd && Word(bs, tail)[k - 1] == Joined(bs)[k - 1];
    }
    Extend(os, k);
    assert os[..k + 1] == os;
  }

  /** The replay returns exactly for quiet traces in block form with the expected children. */
  lemma {:induction false} ReplayIffBlocks(c: Config, os: seq<Observation>)
    requires ValidConfig(c) && forall i | 0 <= i < |os| :: Labelled(os[i])
    ensures Replay(c, os).Some? <==>
            && Dense(os) && AllQuiet(os, c.gap)
            && exists bs, tail :: InBlocks(os, bs, tail) && (c.expected == [] || ChildrenOf(bs) == c.expected)
  {
    ReplayIffAccepted(c, os);
    if Prefix(os) { PrefixIsDense(os); }
    if Dense(os) {
      assert LabelsAt(os);
      ClosedIffBlocks(os);
    }
  }

  lemma {:induction false} PrefixIsDense(os: seq<Observation>)
    requires Prefix(os)
    ensures Dense(os)
  {
    forall i: nat | i < |os| ensures os[i].ordinal == i { assert LabelAt(os, i); }
  }
}
