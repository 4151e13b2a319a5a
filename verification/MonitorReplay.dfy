/** The live session keeps the shape of a trace, and the replay accepts exactly the well-formed ones. */
module MonitorReplay {
  import opened Common
  import opened Monitor
  import opened MonitorRanges

  // ----- one append -----

  lemma {:induction false} ScanFinds(vs: seq<Violation>, before: seq<nat>, after: seq<nat>, attributed: bool, i: nat)
    requires |before| == |after| == 5 && i <= 5
    ensures
      var (ws, ok) := Scan(vs, before, after, attributed, i);
      && (ok <==> forall j | i <= j < 5 :: after[j] >= before[j])
      && (vs != [] ==> ws != [])
      && (ok ==> (ws == [] <==> vs == [] && forall j | i <= j < 5 :: after[j] == before[j]))
    decreases 5 - i
  {
    if i < 5 && after[i] >= before[i] {
      if after[i] == before[i] {
        ScanFinds(vs, before, after, attributed, i + 1);
      } else {
        var grown := Latch(vs, CounterChanged(i));
        ScanFinds(if attributed then grown else Latch(grown, Unattributed), before, after, attributed, i + 1);
      }
    }
  }

  /** A snapshot raises no error and latches no violation exactly when it is quiet after the last one. */
  lemma {:induction false} CompareFinds(m: Session, gap: nat, s: Snapshot)
    ensures
      var (vs, ok) := Compare(m, gap, s);
      && (m.violations != [] ==> vs != [])
      && (ok && vs == [] <==> m.violations == [] && (m.last.Some? ==> Quiet(m.last.value, s, gap)))
  {
    if m.last.Some? && s.monotonicNs > m.last.value.monotonicNs {
      var p := m.last.value;
      var vs := if s.monotonicNs - p.monotonicNs > gap then Latch(m.violations, DelayExceeded) else m.violations;
      ScanFinds(vs, Counters(p), Counters(s), m.active.Some?, 0);
    }
  }

  // ----- the invariant of a live session -----

  function IdSet(ids: seq<string>): set<string> { set i | 0 <= i < |ids| :: ids[i] }

  predicate LastIs(os: seq<Observation>, ps: set<Phase>) { os != [] && os[|os| - 1].phase in ps }

  /** The stage and the active child a trace leads to. */
  predicate StageFits(m: Session) {
    var os := m.observations;
    if os == [] then m.stage in {New, Open} && m.active == None && m.last == None
    else
      var o := os[|os| - 1];
      && m.last == Some(o.snapshot)
      && match o.phase
         case PreBuild => m.stage == Open && m.active == None
         case ChildStart | ChildSample => m.stage in {Open, Between} && m.active == Some(o.child)
         case ChildEnd => m.stage == AfterChild && m.active == None
         case BetweenChildren => m.stage == Between && m.active == None
         case PostRun => m.stage == Post && m.active == None
  }

  /** The incremental fields are what the observations alone determine. */
  predicate Determined(c: Config, m: Session) {
    && Prefix(m.observations)
    && m.ranges == RangesOf(m.observations)
    && m.order == Starts(m.observations) && m.seen == IdSet(m.order)
    && (c.expected != [] ==> m.order <= c.expected)
    && (m.violations == [] ==> AllQuiet(m.observations, c.gap))
  }

  predicate Regular(c: Config, m: Session) { StageFits(m) && Determined(c, m) }

  /** A start refused for want of ordinals: the session can append nothing any more. */
  predicate Jammed(m: Session) {
    |m.observations| > U32_MAX && m.stage in {Open, Between} && m.active.Some?
  }

  predicate SessionInv(c: Config, m: Session) {
    m.stage == Failed || Jammed(m) || Regular(c, m)
  }

  lemma {:induction false} DistinctSize(ids: seq<string>)
    requires Distinct(ids)
    ensures |IdSet(ids)| == |ids|
  {
    if ids != [] {
      var (rest, id) := (ids[..|ids| - 1], ids[|ids| - 1]);
      DistinctSize(rest);
      assert ids == rest + [id];
      IdSetGrows(rest, id);
      assert id !in IdSet(rest);
    }
  }

  /** Adding one observation to a prefix. */
  lemma {:induction false} PrefixGrows(os: seq<Observation>, o: Observation)
    requires Prefix(os) && o.ordinal == |os| && Labelled(o)
    requires if os == [] then o.phase == PreBuild else Neighbours(os[|os| - 1], o)
    requires o.phase == ChildStart ==> o.child !in Starts(os)
    ensures Prefix(os + [o])
    ensures Starts(os + [o]) == if o.phase == ChildStart then Starts(os) + [o.child] else Starts(os)
    ensures RangesOf(os + [o]) ==
            if o.phase == ChildEnd then RangesOf(os) + [ChildRange(o.child, StartOf(os + [o], o.child), |os|)]
            else RangesOf(os)
  {
    var ps := os + [o];
    assert ps[..|ps| - 1] == os;
    forall i: nat | i < |ps|
      ensures LabelAt(ps, i)
    {
      if i < |os| { assert LabelAt(os, i); }
    }
    forall i: nat | i + 1 < |ps|
      ensures NextOk(ps, i)
    {
      if i + 1 < |os| { assert NextOk(os, i); }
    }
  }

  lemma {:induction false} QuietGrows(os: seq<Observation>, o: Observation, gap: nat)
    requires AllQuiet(os, gap) && (os != [] ==> Quiet(os[|os| - 1].snapshot, o.snapshot, gap))
    ensures AllQuiet(os + [o], gap)
  {
    var ps := os + [o];
    forall i: nat | i + 1 < |ps|
      ensures QuietAt(ps, i, gap)
    {
      if i + 1 < |os| { assert QuietAt(os, i, gap); }
    }
  }

  /** A successful append adds one observation, and stays quiet exactly while the trace is. */
  lemma {:induction false} AppendAdds(m: Session, gap: nat, phase: Phase, child: string, s: Snapshot)
    requires Append(m, gap, phase, child, s).1
    requires m.violations == [] ==> AllQuiet(m.observations, gap)
    requires m.last == if m.observations == [] then None else Some(m.observations[|m.observations| - 1].snapshot)
    ensures
      var w := Append(m, gap, phase, child, s).0;
      var o := Observation(|m.observations|, phase, child, s);
      && |m.observations| <= U32_MAX
      && w == m.(observations := m.observations + [o], last := Some(s), violations := w.violations)
      && (w.violations == [] ==> AllQuiet(w.observations, gap))
  {
    CompareFinds(m, gap, s);
    if Append(m, gap, phase, child, s).0.violations == [] {
      QuietGrows(m.observations, Observation(|m.observations|, phase, child, s), gap);
    }
  }

  /** A refused append leaves the session failed, or as it was but for its violations. */
  lemma {:induction false} AppendRefuses(m: Session, gap: nat, phase: Phase, child: string, s: Snapshot)
    requires !Append(m, gap, phase, child, s).1
    ensures
      var w := Append(m, gap, phase, child, s).0;
      w.stage == Failed ||
      (|m.observations| > U32_MAX && w == m.(violations := w.violations) && (w.violations == [] ==> m.violations == []))
  {
    CompareFinds(m, gap, s);
  }

  /** `w` is `m` with one more observation. */
  predicate Adds(c: Config, m: Session, o: Observation, w: Session) {
    && w == m.(observations := m.observations + [o], last := Some(o.snapshot), violations := w.violations)
    && (w.violations == [] ==> AllQuiet(w.observations, c.gap))
    && o.ordinal == |m.observations| && Labelled(o)
    && (if m.observations == [] then o.phase == PreBuild else Neighbours(m.observations[|m.observations| - 1], o))
  }

  /** An observation that neither starts nor ends a child keeps what the observations determine. */
  lemma {:induction false} Recorded(c: Config, m: Session, o: Observation, w: Session)
    requires Determined(c, m) && Adds(c, m, o, w) && o.phase !in {ChildStart, ChildEnd}
    ensures Determined(c, w)
  {
    PrefixGrows(m.observations, o);
  }

  /** A child's end adds its range. */
  lemma {:induction false} RecordedEnd(c: Config, m: Session, o: Observation, v: Session, w: Session)
    requires Determined(c, m) && Adds(c, m, o, v) && o.phase == ChildEnd
    requires w == v.(ranges := v.ranges + [ChildRange(o.child, StartOf(v.observations, o.child), |v.observations| - 1)],
                     active := None, stage := AfterChild)
    ensures Determined(c, w)
  {
    PrefixGrows(m.observations, o);
  }

  /** A refused append keeps the invariant. */
  lemma {:induction false} RefusedKeepsInv(c: Config, m: Session, phase: Phase, child: string, s: Snapshot)
    requires Regular(c, m) && !Append(m, c.gap, phase, child, s).1
    ensures var w := Append(m, c.gap, phase, child, s).0; w.stage == Failed || Regular(c, w)
  {
    AppendRefuses(m, c.gap, phase, child, s);
  }

  /** The guards of `start_child` before anything is recorded. */
  predicate StartAllowed(c: Config, m: Session, child: string) {
    && IsHex64(child) && m.active == None && m.stage in {Open, Between}
    && m.observations != [] && m.observations[0].phase == PreBuild && child !in m.seen
    && (c.expected != [] ==> |m.seen| < |c.expected| && child == c.expected[|m.seen|])
  }

  lemma {:induction false} StartKeepsInv(c: Config, m: Session, child: string, s: Snapshot)
    requires ValidConfig(c) && Regular(c, m)
    ensures SessionInv(c, Do(c, m, StartOp(child, s)).0)
    ensures Do(c, m, StartOp(child, s)).1 ==> Regular(c, Do(c, m, StartOp(child, s)).0)
  {
    if StartAllowed(c, m, child) {
      var n := m.(seen := m.seen + {child}, order := m.order + [child], active := Some(child));
      var (w, ok) := Append(n, c.gap, ChildStart, child, s);
      assert Do(c, m, StartOp(child, s)) == (w, ok);
      if ok {
        assert LastIs(m.observations, {PreBuild, BetweenChildren});
        StartAdds(c, m, n, child, s);
      } else {
        AppendRefuses(n, c.gap, ChildStart, child, s);
      }
    } else {
      assert !Do(c, m, StartOp(child, s)).1 && Do(c, m, StartOp(child, s)).0 in {m, Fail(m)};
    }
  }

  lemma {:induction false} StartAdds(c: Config, m: Session, n: Session, child: string, s: Snapshot)
    requires Regular(c, m) && IsHex64(child) && child !in m.seen && LastIs(m.observations, {PreBuild, BetweenChildren})
    requires c.expected != [] ==> |m.seen| < |c.expected| && child == c.expected[|m.seen|]
    requires n == m.(seen := m.seen + {child}, order := m.order + [child], active := Some(child))
    requires Append(n, c.gap, ChildStart, child, s).1
    ensures Regular(c, Append(n, c.gap, ChildStart, child, s).0)
  {
    var o := Observation(|m.observations|, ChildStart, child, s);
    AppendAdds(n, c.gap, ChildStart, child, s);
    StartOrder(c, m, child);
    PrefixGrows(m.observations, o);
  }

  /** A start that is not refused extends the expected order. */
  lemma {:induction false} StartOrder(c: Config, m: Session, child: string)
    requires Determined(c, m)
    requires c.expected != [] ==> |m.seen| < |c.expected| && child == c.expected[|m.seen|]
    ensures IdSet(m.order + [child]) == m.seen + {child}
    ensures c.expected != [] ==> m.order + [child] <= c.expected
  {
    DistinctSize(m.order);
    IdSetGrows(m.order, child);
    if c.expected != [] { OrderGrows(m.order, c.expected, child); }
  }

  lemma {:induction false} OrderGrows(order: seq<string>, expected: seq<string>, child: string)
    requires order <= expected && |order| < |expected| && child == expected[|order|]
    ensures order + [child] <= expected
  {
    assert expected[..|order| + 1] == expected[..|order|] + [child];
  }

  lemma {:induction false} IdSetGrows(ids: seq<string>, id: string)
    ensures IdSet(ids + [id]) == IdSet(ids) + {id}
  {
    assert (ids + [id])[|ids|] == id;
    forall x | x in IdSet(ids)
      ensures x in IdSet(ids + [id])
    {
      var i :| 0 <= i < |ids| && ids[i] == x;
      assert (ids + [id])[i] == x;
    }
  }

  /** The active child carries a well-formed ID: it is the last observation's. */
  lemma {:induction false} ActiveId(c: Config, m: Session)
    requires Regular(c, m) && m.active.Some?
    ensures m.observations != [] && IsHex64(m.active.value)
    ensures m.observations[|m.observations| - 1].phase in {ChildStart, ChildSample}
    ensures m.observations[|m.observations| - 1].child == m.active.value
    ensures m.stage in {Open, Between}
  {
    assert LabelAt(m.observations, |m.observations| - 1);
  }

  lemma {:induction false} SampleKeepsInv(c: Config, m: Session, s: Snapshot)
    requires ValidConfig(c) && Regular(c, m)
    ensures SessionInv(c, Do(c, m, SampleOp(s)).0)
    ensures Do(c, m, SampleOp(s)).1 ==> Regular(c, Do(c, m, SampleOp(s)).0)
  {
    if m.active.Some? {
      var (w, ok) := Append(m, c.gap, ChildSample, m.active.value, s);
      ActiveId(c, m);
      if ok {
        AppendAdds(m, c.gap, ChildSample, m.active.value, s);
        Recorded(c, m, Observation(|m.observations|, ChildSample, m.active.value, s), w);
      } else {
        RefusedKeepsInv(c, m, ChildSample, m.active.value, s);
      }
    }
  }

  lemma {:induction false} EndKeepsInv(c: Config, m: Session, s: Snapshot)
    requires ValidConfig(c) && Regular(c, m)
    ensures SessionInv(c, Do(c, m, EndOp(s)).0)
    ensures Do(c, m, EndOp(s)).1 ==> Regular(c, Do(c, m, EndOp(s)).0)
  {
    if m.active.Some? {
      if Append(m, c.gap, ChildEnd, m.active.value, s).1 {
        EndRecorded(c, m, s);
      } else {
        RefusedKeepsInv(c, m, ChildEnd, m.active.value, s);
      }
    }
  }

  lemma {:induction false} EndRecorded(c: Config, m: Session, s: Snapshot)
    requires ValidConfig(c) && Regular(c, m) && m.active.Some? && Append(m, c.gap, ChildEnd, m.active.value, s).1
    ensures Regular(c, Do(c, m, EndOp(s)).0)
  {
    var v := Append(m, c.gap, ChildEnd, m.active.value, s).0;
    ActiveId(c, m);
    AppendAdds(m, c.gap, ChildEnd, m.active.value, s);
    RecordedEnd(c, m, Observation(|m.observations|, ChildEnd, m.active.value, s), v, Do(c, m, EndOp(s)).0);
  }

  /** The three observations that belong to no child. */
  lemma {:induction false} HostAdds(c: Config, m: Session, phase: Phase, s: Snapshot)
    requires Regular(c, m) && !IsChildPhase(phase)
    requires if m.observations == [] then phase == PreBuild else Follows(m.observations[|m.observations| - 1].phase, phase)
    ensures
      var (w, ok) := Append(m, c.gap, phase, "", s);
      if ok then Determined(c, w) && w == m.(observations := w.observations, last := Some(s), violations := w.violations)
                 && w.observations == m.observations + [Observation(|m.observations|, phase, "", s)]
      else w.stage == Failed || Regular(c, w)
  {
    var (w, ok) := Append(m, c.gap, phase, "", s);
    if ok {
      AppendAdds(m, c.gap, phase, "", s);
      Recorded(c, m, Observation(|m.observations|, phase, "", s), w);
    } else {
      RefusedKeepsInv(c, m, phase, "", s);
    }
  }

  lemma {:induction false} PreBuildKeepsInv(c: Config, m: Session, s: Snapshot)
    requires Regular(c, m)
    ensures SessionInv(c, Do(c, m, PreBuildOp(s)).0)
    ensures Do(c, m, PreBuildOp(s)).1 ==> Regular(c, Do(c, m, PreBuildOp(s)).0)
  {
    if m.stage == Open && m.observations == [] { HostAdds(c, m, PreBuild, s); }
  }

  lemma {:induction false} BetweenKeepsInv(c: Config, m: Session, s: Snapshot)
    requires Regular(c, m)
    ensures SessionInv(c, Do(c, m, BetweenOp(s)).0)
    ensures Do(c, m, BetweenOp(s)).1 ==> Regular(c, Do(c, m, BetweenOp(s)).0)
  {
    if m.stage == AfterChild && m.active == None {
      assert LastIs(m.observations, {ChildEnd});
      HostAdds(c, m, BetweenChildren, s);
    }
  }

  lemma {:induction false} PostKeepsInv(c: Config, m: Session, s: Snapshot)
    requires Regular(c, m)
    ensures SessionInv(c, Do(c, m, PostOp(s)).0)
    ensures Do(c, m, PostOp(s)).1 ==> Regular(c, Do(c, m, PostOp(s)).0)
  {
    if m.stage in {AfterChild, Between} && m.active == None {
      assert LastIs(m.observations, {ChildEnd, BetweenChildren});
      HostAdds(c, m, PostRun, s);
    }
  }

  /** Every call keeps the invariant, whether it returns or raises. */
  lemma {:induction false} DoKeepsInv(c: Config, m: Session, op: Op)
    requires ValidConfig(c) && SessionInv(c, m)
    ensures SessionInv(c, Do(c, m, op).0)
    ensures Regular(c, m) && Do(c, m, op).1 ==> Regular(c, Do(c, m, op).0)
  {
    if Regular(c, m) {
      match op
      case StartOp(child, s) => StartKeepsInv(c, m, child, s);
      case EndOp(s) => EndKeepsInv(c, m, s);
      case SampleOp(s) => SampleKeepsInv(c, m, s);
      case OpenOp =>
      case EventOp(_, _) =>
      case PreBuildOp(s) => PreBuildKeepsInv(c, m, s);
      case BetweenOp(s) => BetweenKeepsInv(c, m, s);
      case PostOp(s) => PostKeepsInv(c, m, s);
    }
  }

  lemma {:induction false} LiveKeepsInv(c: Config, ops: seq<Op>)
    requires ValidConfig(c)
    ensures SessionInv(c, Live(c, ops))
    decreases |ops|
  {
    if ops != [] {
      LiveKeepsInv(c, ops[..|ops| - 1]);
      DoKeepsInv(c, Live(c, ops[..|ops| - 1]), ops[|ops| - 1]);
    }
  }

  // ----- finishing and replaying -----

  datatype MonitorResult = MonitorResult(observations: seq<Observation>, ranges: seq<ChildRange>)

  /** The checks of `finish`, the range recheck among them. */
  ghost predicate FinishOk(c: Config, m: Session) {
    && m.stage == Post && m.active == None
    && (c.expected == [] || m.order == c.expected)
    && RecheckOk(m)
    && m.violations == []
  }

  ghost predicate RecheckOk(m: Session) {
    m.observations != [] && Dense(m.observations) && LabelsOk(m.observations) && Partition(m.observations, m.ranges)
  }

  /** The call that replays one observation. */
  function OpOf(o: Observation): Op {
    match o.phase
    case PreBuild => PreBuildOp(o.snapshot)
    case ChildStart => StartOp(o.child, o.snapshot)
    case ChildSample => SampleOp(o.snapshot)
    case ChildEnd => EndOp(o.snapshot)
    case BetweenChildren => BetweenOp(o.snapshot)
    case PostRun => PostOp(o.snapshot)
  }

  /** The session after replaying the observations, and whether no call raised. */
  function ReplayTo(c: Config, os: seq<Observation>): (Session, bool)
    decreases |os|
  {
    if os == [] then Do(c, FRESH, OpenOp)
    else
      var (m, ok) := ReplayTo(c, os[..|os| - 1]);
      if !ok || os[|os| - 1].ordinal != |os| - 1 then (m, false) else Do(c, m, OpOf(os[|os| - 1]))
  }

  ghost function Replay(c: Config, os: seq<Observation>): Option<MonitorResult> {
    var (m, ok) := ReplayTo(c, os);
    if ok && FinishOk(c, m) && m.observations == os then Some(MonitorResult(m.observations, m.ranges)) else None
  }

  /** A complete trace: well shaped, quiet, closed by post-run, with the expected children. */
  predicate Accepted(c: Config, os: seq<Observation>) {
    && Prefix(os) && LastIs(os, {PostRun}) && AllQuiet(os, c.gap)
    && (c.expected == [] || Starts(os) == c.expected)
  }

  lemma {:induction false} ReplayKeepsInv(c: Config, os: seq<Observation>)
    requires ValidConfig(c)
    ensures SessionInv(c, ReplayTo(c, os).0)
    decreases |os|
  {
    if os == [] {
      DoKeepsInv(c, FRESH, OpenOp);
    } else {
      ReplayKeepsInv(c, os[..|os| - 1]);
      DoKeepsInv(c, ReplayTo(c, os[..|os| - 1]).0, OpOf(os[|os| - 1]));
    }
  }

  /** A quiet append never raises while ordinals last. */
  lemma {:induction false} QuietAppend(m: Session, gap: nat, phase: Phase, child: string, s: Snapshot)
    requires m.stage !in {New, Closed, Failed} && m.violations == [] && |m.observations| <= U32_MAX
    requires m.last.Some? ==> Quiet(m.last.value, s, gap)
    ensures
      var o := Observation(|m.observations|, phase, child, s);
      Append(m, gap, phase, child, s) == (m.(observations := m.observations + [o], last := Some(s)), true)
  {
    CompareFinds(m, gap, s);
  }

  /** The replay takes one more start of an acceptable prefix. */
  lemma {:induction false} ReplayStart(c: Config, m: Session, o: Observation)
    requires Regular(c, m) && m.violations == [] && o.phase == ChildStart && Labelled(o) && o.ordinal == |m.observations|
    requires LastIs(m.observations, {PreBuild, BetweenChildren}) && Distinct(m.order + [o.child])
    requires Quiet(m.last.value, o.snapshot, c.gap)
    requires c.expected != [] ==> m.order + [o.child] <= c.expected
    ensures
      var (w, ok) := Do(c, m, StartOp(o.child, o.snapshot));
      ok && w.observations == m.observations + [o] && w.violations == [] && w.stage != New
  {
    FreshStart(m.order, o.child);
    DistinctSize(m.order);
    assert c.expected != [] ==> (m.order + [o.child])[|m.order|] == o.child;
    var w := m.(seen := m.seen + {o.child}, order := m.order + [o.child], active := Some(o.child));
    QuietAppend(w, c.gap, ChildStart, o.child, o.snapshot);
  }

  /** The replay takes any other observation that may come next. */
  lemma {:induction false} ReplayOther(c: Config, m: Session, o: Observation)
    requires StageFits(m) && m.violations == [] && m.stage != New && o.phase != ChildStart
    requires Labelled(o) && o.ordinal == |m.observations|
    requires if m.observations == [] then o.phase == PreBuild else Neighbours(m.observations[|m.observations| - 1], o)
    requires m.last.Some? ==> Quiet(m.last.value, o.snapshot, c.gap)
    ensures
      var (w, ok) := Do(c, m, OpOf(o));
      ok && w.observations == m.observations + [o] && w.violations == [] && w.stage != New
  {
    QuietAppend(m, c.gap, o.phase, o.child, o.snapshot);
  }

  lemma {:induction false} ReplayStep(c: Config, m: Session, o: Observation)
    requires ValidConfig(c) && Regular(c, m) && m.violations == [] && m.stage != New && Prefix(m.observations + [o])
    requires m.last.Some? ==> Quiet(m.last.value, o.snapshot, c.gap)
    requires c.expected != [] ==> Starts(m.observations + [o]) <= c.expected
    ensures
      var (w, ok) := Do(c, m, OpOf(o));
      ok && Regular(c, w) && w.observations == m.observations + [o] && w.violations == [] && w.stage != New
  {
    var (os, n) := (m.observations + [o], |m.observations|);
    assert os[n] == o && os[..n] == m.observations;
    assert LabelAt(os, n);
    if n > 0 { assert NextOk(os, n - 1); }
    if o.phase == ChildStart {
      assert Starts(os) == m.order + [o.child];
      ReplayStart(c, m, o);
    } else {
      ReplayOther(c, m, o);
    }
    DoKeepsInv(c, m, OpOf(o));
  }

  lemma {:induction false} FreshStart(ids: seq<string>, id: string)
    requires Distinct(ids + [id])
    ensures id !in IdSet(ids) && Distinct(ids)
  {
    assert forall i | 0 <= i < |ids| :: (ids + [id])[i] == ids[i];
    assert forall i | 0 <= i < |ids| :: (ids + [id])[i] != (ids + [id])[|ids|];
  }

  lemma {:induction false} AcceptableShrinks(c: Config, os: seq<Observation>)
    requires os != [] && Acceptable(c, os)
    ensures Acceptable(c, os[..|os| - 1])
  {
    PrefixShrinks(os);
    var p := os[..|os| - 1];
    forall i: nat | i + 1 < |p| ensures QuietAt(p, i, c.gap) { assert QuietAt(os, i, c.gap); }
  }

  /** Conditions under which a replay is still going well. */
  predicate Acceptable(c: Config, os: seq<Observation>) {
    Prefix(os) && AllQuiet(os, c.gap) && (c.expected != [] ==> Starts(os) <= c.expected)
  }

  predicate Replayed(c: Config, os: seq<Observation>, m: Session, ok: bool) {
    ok && Regular(c, m) && m.observations == os && m.violations == [] && m.stage != New
  }

  lemma {:induction false} ReplayExtends(c: Config, os: seq<Observation>, m: Session)
    requires ValidConfig(c) && os != [] && Acceptable(c, os) && Replayed(c, os[..|os| - 1], m, true)
    ensures Replayed(c, os, Do(c, m, OpOf(os[|os| - 1])).0, Do(c, m, OpOf(os[|os| - 1])).1)
    ensures os[|os| - 1].ordinal == |os| - 1
  {
    var (n, p) := (|os| - 1, os[..|os| - 1]);
    assert p + [os[n]] == os && LabelAt(os, n);
    if n > 0 { assert QuietAt(os, n - 1, c.gap); }
    ReplayStep(c, m, os[n]);
  }

  lemma {:induction false} ReplayRuns(c: Config, os: seq<Observation>)
    requires ValidConfig(c) && Acceptable(c, os)
    ensures Replayed(c, os, ReplayTo(c, os).0, ReplayTo(c, os).1)
    decreases |os|
  {
    if os == [] {
      assert ReplayTo(c, os) == (FRESH.(stage := Open), true);
    } else {
      AcceptableShrinks(c, os);
      ReplayRuns(c, os[..|os| - 1]);
      ReplayExtends(c, os, ReplayTo(c, os[..|os| - 1]).0);
    }
  }

  lemma {:induction false} PrefixRechecks(os: seq<Observation>)
    requires Prefix(os) && LastIs(os, {PostRun})
    ensures Dense(os) && LabelsOk(os) && Partition(os, RangesOf(os))
  {
    forall i: nat | i < |os| ensures os[i].ordinal == i && (IsChildPhase(os[i].phase) <==> os[i].child != "") {
      assert LabelAt(os, i);
    }
    PrefixPartition(os);
  }

  lemma {:induction false} PostRechecks(c: Config, m: Session)
    requires SessionInv(c, m) && m.stage == Post
    ensures RecheckOk(m) && m.ranges == RangesOf(m.observations)
  {
    PrefixRechecks(m.observations);
  }

  /** In every live session that reached post-run, `finish` finds nothing to object to in the ranges. */
  lemma {:induction false} RecheckNeverFails(c: Config, ops: seq<Op>)
    requires ValidConfig(c) && Live(c, ops).stage == Post
    ensures RecheckOk(Live(c, ops)) && Live(c, ops).ranges == RangesOf(Live(c, ops).observations)
  {
    LiveKeepsInv(c, ops);
    PostRechecks(c, Live(c, ops));
  }

  lemma {:induction false} AcceptedReplays(c: Config, os: seq<Observation>)
    requires ValidConfig(c) && Accepted(c, os)
    ensures Replay(c, os) == Some(MonitorResult(os, RangesOf(os)))
  {
    ReplayRuns(c, os);
    PrefixRechecks(os);
  }

  lemma {:induction false} FinishedIsAccepted(c: Config, m: Session)
    requires SessionInv(c, m) && FinishOk(c, m)
    ensures Accepted(c, m.observations) && m.ranges == RangesOf(m.observations)
  {
  }

  /** The replay returns exactly for complete traces, with the observations and their ranges. */
  lemma {:induction false} ReplayIffAccepted(c: Config, os: seq<Observation>)
    requires ValidConfig(c)
    ensures Replay(c, os).Some? <==> Accepted(c, os)
    ensures Accepted(c, os) ==> Replay(c, os) == Some(MonitorResult(os, RangesOf(os)))
  {
    if Accepted(c, os) { AcceptedReplays(c, os); }
    if Replay(c, os).Some? {
      ReplayKeepsInv(c, os);
      FinishedIsAccepted(c, ReplayTo(c, os).0);
    }
  }

  /** Replaying any finished live session succeeds with the identical result. */
  lemma {:induction false} LiveSessionReplays(c: Config, ops: seq<Op>)
    requires ValidConfig(c) && FinishOk(c, Live(c, ops))
    ensures
      var m := Live(c, ops);
      Replay(c, m.observations) == Some(MonitorResult(m.observations, m.ranges))
  {
    LiveKeepsInv(c, ops);
    FinishedIsAccepted(c, Live(c, ops));
    AcceptedReplays(c, Live(c, ops).observations);
  }

  // ----- violations and failures are kept -----

  lemma {:induction false} ScanLatches(vs: seq<Violation>, before: seq<nat>, after: seq<nat>, attributed: bool, i: nat)
    requires |before| == |after| == 5 && i <= 5
    ensures vs <= Scan(vs, before, after, attributed, i).0
    decreases 5 - i
  {
    if i < 5 && after[i] >= before[i] {
      var grown := Latch(vs, CounterChanged(i));
      var next := if after[i] == before[i] then vs else if attributed then grown else Latch(grown, Unattributed);
      ScanLatches(next, before, after, attributed, i + 1);
    }
  }

  lemma {:induction false} KeptTwice(us: seq<Violation>, vs: seq<Violation>, ws: seq<Violation>)
    requires us <= vs && vs <= ws
    ensures us <= ws
  {
  }

  lemma {:induction false} CompareLatches(m: Session, gap: nat, s: Snapshot)
    ensures m.violations <= Compare(m, gap, s).0
  {
    if m.last.Some? && s.monotonicNs > m.last.value.monotonicNs {
      var p := m.last.value;
      var vs := if s.monotonicNs - p.monotonicNs > gap then Latch(m.violations, DelayExceeded) else m.violations;
      var ws := Scan(vs, Counters(p), Counters(s), m.active.Some?, 0).0;
      ScanLatches(vs, Counters(p), Counters(s), m.active.Some?, 0);
      assert Compare(m, gap, s).0 in {ws, Latch(ws, Event(Swap))};
      KeptTwice(m.violations, vs, ws);
      KeptTwice(m.violations, ws, Latch(ws, Event(Swap)));
    }
  }

  /** Violations only grow, and a failed session stays failed. */
  predicate Latches(m: Session, w: Session) {
    m.violations <= w.violations && (m.stage == Failed ==> w.stage == Failed)
  }

  lemma {:induction false} AppendLatches(m: Session, gap: nat, phase: Phase, child: string, s: Snapshot)
    ensures Latches(m, Append(m, gap, phase, child, s).0)
  {
    CompareLatches(m, gap, s);
  }

  /** No call takes a violation back or leaves the failed stage. */
  lemma {:induction false} DoLatches(c: Config, m: Session, op: Op)
    ensures Latches(m, Do(c, m, op).0)
  {
    match op
    case PreBuildOp(s) => AppendLatches(m, c.gap, PreBuild, "", s);
    case StartOp(child, s) =>
      var w := m.(seen := m.seen + {child}, order := m.order + [child], active := Some(child));
      AppendLatches(w, c.gap, ChildStart, child, s);
    case SampleOp(s) => if m.active.Some? { AppendLatches(m, c.gap, ChildSample, m.active.value, s); }
    case EndOp(s) => EndLatches(c, m, s);
    case BetweenOp(s) => AppendLatches(m, c.gap, BetweenChildren, "", s);
    case PostOp(s) => AppendLatches(m, c.gap, PostRun, "", s);
    case OpenOp =>
    case EventOp(_, _) =>
  }

  /** The end of a child comes only from a session that takes observations. */
  lemma {:induction false} EndLatches(c: Config, m: Session, s: Snapshot)
    ensures Latches(m, Do(c, m, EndOp(s)).0)
  {
    if m.active.Some? { AppendLatches(m, c.gap, ChildEnd, m.active.value, s); }
  }

  lemma {:induction false} LiveLatches(c: Config, ops: seq<Op>, more: seq<Op>)
    ensures Live(c, ops).violations <= Live(c, ops + more).violations
    ensures Live(c, ops).stage == Failed ==> Live(c, ops + more).stage == Failed
    decreases |more|
  {
    if more == [] {
      assert ops + more == ops;
    } else {
      var front := more[..|more| - 1];
      LiveLatches(c, ops, front);
      assert (ops + more)[..|ops + more| - 1] == ops + front && (ops + more)[|ops + more| - 1] == more[|more| - 1];
      DoLatches(c, Live(c, ops + front), more[|more| - 1]);
    }
  }

  /** Once a session has latched a violation or failed, no continuation of it can finish. */
  lemma {:induction false} LatchedNeverFinishes(c: Config, ops: seq<Op>, more: seq<Op>)
    requires Live(c, ops).violations != [] || Live(c, ops).stage == Failed
    ensures !FinishOk(c, Live(c, ops + more))
  {
    LiveLatches(c, ops, more);
  }
}
