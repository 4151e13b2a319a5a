/** The lifecycle object and the report replay, in the form the monitor runs them. */
module MonitorLifecycleObject {
  import opened Common
  import opened Monitor
  import opened MonitorRanges
  import opened MonitorReplay

  class MonitorLifecycle {
    const c: Config
    var m: Session

    constructor (c: Config)
      requires ValidConfig(c)
      ensures this.c == c && m == FRESH
    {
      this.c, m := c, FRESH;
    }

    method LatchViolation(v: Violation)
      modifies this
      ensures m == old(m).(violations := Latch(old(m).violations, v))
    {
      if v !in m.violations { m := m.(violations := m.violations + [v]); }
    }

    /** The counter loop of `_append`. */
    method ScanCounters(before: seq<nat>, after: seq<nat>) returns (ok: bool)
      requires |before| == |after| == 5
      modifies this
      ensures (m, ok) == (old(m).(violations := Scan(old(m).violations, before, after, old(m).active.Some?, 0).0),
                          Scan(old(m).violations, before, after, old(m).active.Some?, 0).1)
    {
      for i := 0 to 5
        invariant m == old(m).(violations := m.violations)
        invariant Scan(m.violations, before, after, m.active.Some?, i) ==
                  Scan(old(m).violations, before, after, m.active.Some?, 0)
      {
        if after[i] < before[i] { return false; }
        if after[i] > before[i] {
          LatchViolation(CounterChanged(i));
          if m.active.None? { LatchViolation(Unattributed); }
        }
      }
      return true;
    }

    method AppendSnapshot(phase: Phase, child: string, s: Snapshot) returns (ok: bool)
      modifies this
      ensures (m, ok) == Append(old(m), c.gap, phase, child, s)
    {
      if m.stage in {New, Closed, Failed} {
        m := Fail(m);
        return false;
      }
      if m.last.Some? {
        var p := m.last.value;
        if s.monotonicNs <= p.monotonicNs {
          m := Fail(m);
          return false;
        }
        if s.monotonicNs - p.monotonicNs > c.gap { LatchViolation(DelayExceeded); }
        ok := ScanCounters(Counters(p), Counters(s));
        if !ok || TotalsReset(p, s) {
          m := Fail(m);
          return false;
        }
        if s.swapRead > p.swapRead || s.swapWrite > p.swapWrite { LatchViolation(Event(Swap)); }
      }
      if |m.observations| > U32_MAX { return false; }
      m := m.(observations := m.observations + [Observation(|m.observations|, phase, child, s)], last := Some(s));
      return true;
    }

    method OpenSession() returns (ok: bool)
      modifies this
      ensures (m, ok) == Do(c, old(m), OpenOp)
    {
      if m.stage != New {
        m := Fail(m);
        return false;
      }
      m := m.(stage := Open);
      return true;
    }

    method RecordPreBuild(s: Snapshot) returns (ok: bool)
      modifies this
      ensures (m, ok) == Do(c, old(m), PreBuildOp(s))
    {
      if m.stage != Open || m.observations != [] {
        m := Fail(m);
        return false;
      }
      ok := AppendSnapshot(PreBuild, "", s);
    }

    method StartChild(child: string, s: Snapshot) returns (ok: bool)
      modifies this
      ensures (m, ok) == Do(c, old(m), StartOp(child, s))
    {
      if !IsHex64(child) { return false; }
      if m.active.Some? || m.stage !in {Open, Between}
         || m.observations == [] || m.observations[0].phase != PreBuild || child in m.seen {
        m := Fail(m);
        return false;
      }
      if c.expected != [] && (|m.seen| >= |c.expected| || child != c.expected[|m.seen|]) {
        m := Fail(m);
        return false;
      }
      m := m.(seen := m.seen + {child}, order := m.order + [child], active := Some(child));
      ok := AppendSnapshot(ChildStart, child, s);
    }

    method SampleChild(s: Snapshot) returns (ok: bool)
      modifies this
      ensures (m, ok) == Do(c, old(m), SampleOp(s))
    {
      if m.active.None? {
        m := Fail(m);
        return false;
      }
      ok := AppendSnapshot(ChildSample, m.active.value, s);
    }

    /** The backward search for the child's start. */
    method FindStart(child: string) returns (start: nat)
      ensures start == StartOf(m.observations, child)
    {
      var os := m.observations;
      StartIsLatest(os, child);
      var i := |os|;
      while i > 0
        invariant 0 <= i <= |os|
        invariant forall j | i <= j < |os| :: !IsStart(os[j], child)
      {
        i := i - 1;
        if IsStart(os[i], child) { return i; }
      }
      return |os|;
    }

    method EndChild(s: Snapshot) returns (ok: bool)
      modifies this
      ensures (m, ok) == Do(c, old(m), EndOp(s))
    {
      if m.active.None? {
        m := Fail(m);
        return false;
      }
      var child := m.active.value;
      ok := AppendSnapshot(ChildEnd, child, s);
      if !ok { return; }
      var start := FindStart(child);
      m := m.(ranges := m.ranges + [ChildRange(child, start, |m.observations| - 1)], active := None, stage := AfterChild);
    }

    method RecordBetweenChildren(s: Snapshot) returns (ok: bool)
      modifies this
      ensures (m, ok) == Do(c, old(m), BetweenOp(s))
    {
      if m.active.Some? || m.stage != AfterChild {
        m := Fail(m);
        return false;
      }
      ok := AppendSnapshot(BetweenChildren, "", s);
      if ok { m := m.(stage := Between); }
    }

    method RecordPostRun(s: Snapshot) returns (ok: bool)
      modifies this
      ensures (m, ok) == Do(c, old(m), PostOp(s))
    {
      if m.active.Some? || m.stage !in {AfterChild, Between} {
        m := Fail(m);
        return false;
      }
      ok := AppendSnapshot(PostRun, "", s);
      if ok { m := m.(stage := Post); }
    }

    method RecordEvent(kind: EventKind, at: Option<nat>) returns (ok: bool)
      modifies this
      ensures (m, ok) == Do(c, old(m), EventOp(kind, at))
    {
      if m.stage in {New, Closed, Failed} {
        m := Fail(m);
        return false;
      }
      if at.Some? {
        if at.value > MAX_U64 { return false; }
        if m.last.None? || at.value < m.last.value.monotonicNs {
          m := Fail(m);
          return false;
        }
      }
      if m.active.None? { LatchViolation(Unattributed); }
      LatchViolation(Event(kind));
      return true;
    }

    /** Ends the session; a session that reached post-run is never refused by the range recheck. */
    method Finish() returns (result: Option<MonitorResult>)
      requires ValidConfig(c) && SessionInv(c, m)
      modifies this
      ensures result.Some? <==> FinishOk(c, old(m))
      ensures result.Some? ==> result.value == MonitorResult(old(m).observations, RangesOf(old(m).observations))
      ensures m == old(m).(stage := if result.Some? then Closed else m.stage)
      ensures result.None? ==> m.stage == Failed
    {
      if m.stage != Post || m.active.Some? || (c.expected != [] && m.order != c.expected) {
        m := Fail(m);
        return None;
      }
      PrefixRechecks(m.observations);
      var checked := ValidateChildRanges(m.observations, m.ranges);
      assert checked;
      if m.violations != [] {
        m := Fail(m);
        return None;
      }
      m := m.(stage := Closed);
      return Some(MonitorResult(m.observations, m.ranges));
    }

    /** Dispatches one report observation to its call. */
    method ReplayOne(o: Observation) returns (ok: bool)
      modifies this
      ensures (m, ok) == Do(c, old(m), OpOf(o))
    {
      match o.phase
      case PreBuild => ok := RecordPreBuild(o.snapshot);
      case ChildStart => ok := StartChild(o.child, o.snapshot);
      case ChildSample => ok := SampleChild(o.snapshot);
      case ChildEnd => ok := EndChild(o.snapshot);
      case BetweenChildren => ok := RecordBetweenChildren(o.snapshot);
      case PostRun => ok := RecordPostRun(o.snapshot);
    }
  }

  /** A raised error is never undone: a longer replay fails too. */
  lemma {:induction false} ReplayStaysRefused(c: Config, os: seq<Observation>, k: nat)
    requires k <= |os| && !ReplayTo(c, os[..k]).1
    ensures !ReplayTo(c, os).1
    decreases |os| - k
  {
    if k < |os| {
      assert os[..k + 1][..k] == os[..k];
      ReplayStaysRefused(c, os, k + 1);
    } else {
      assert os[..k] == os;
    }
  }

  /** The loop over the observations; it stops at the first that raises. */
  method ReplayAll(lifecycle: MonitorLifecycle, os: seq<Observation>) returns (ok: bool)
    requires lifecycle.m == Do(lifecycle.c, FRESH, OpenOp).0
    modifies lifecycle
    ensures ok == ReplayTo(lifecycle.c, os).1
    ensures ok ==> lifecycle.m == ReplayTo(lifecycle.c, os).0
  {
    assert os[..0] == [];
    for i := 0 to |os|
      invariant (lifecycle.m, true) == ReplayTo(lifecycle.c, os[..i])
    {
      assert os[..i + 1][..i] == os[..i];
      if os[i].ordinal != i {
        ReplayStaysRefused(lifecycle.c, os, i + 1);
        return false;
      }
      ok := lifecycle.ReplayOne(os[i]);
      if !ok {
        ReplayStaysRefused(lifecycle.c, os, i + 1);
        return;
      }
    }
    assert os[..|os|] == os;
    ok := true;
  }

  /** `validate_report_observations`: replays the report through a fresh lifecycle. */
  method ValidateReportObservations(os: seq<Observation>, c: Config) returns (result: Option<MonitorResult>)
    requires ValidConfig(c)
    ensures result.Some? <==> Accepted(c, os)
    ensures result.Some? ==> result.value == MonitorResult(os, RangesOf(os))
  {
    var lifecycle := new MonitorLifecycle(c);
    var ok := lifecycle.OpenSession();
    ok := ReplayAll(lifecycle, os);
    ReplayIffAccepted(c, os);
    if !ok { return None; }
    ReplayKeepsInv(c, os);
    result := lifecycle.Finish();
    if result.Some? && result.value.observations != os { return None; }
  }
}
