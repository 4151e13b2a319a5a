/**
 The monitor lifecycle: an incremental recogniser of observation traces, and the replay that
 must agree with it.
 */
module Monitor {
  import opened Common

  const U32_MAX: nat := 0xFFFF_FFFF

  datatype Phase = PreBuild | ChildStart | ChildSample | ChildEnd | BetweenChildren | PostRun

  datatype Snapshot = Snapshot(
    monotonicNs: nat, loadMilli: nat, cpuPressureTotal: nat, memoryPressureTotal: nat, freeMemory: nat,
    swapRead: nat, swapWrite: nat, throttle: nat, thermal: nat, foreignSchedule: nat, foreignContainer: nat,
    monitorLost: nat, frequencyKhz: nat, temperatureMillic: nat, containerManifest: string)

  datatype Observation = Observation(ordinal: nat, phase: Phase, child: string, snapshot: Snapshot)

  datatype ChildRange = ChildRange(child: string, first: nat, last: nat)

  predicate IsChildPhase(p: Phase) { p.ChildStart? || p.ChildSample? || p.ChildEnd? }

  /** What an observation's constructor demands of its label and its ordinal. */
  predicate Labelled(o: Observation) {
    o.ordinal <= U32_MAX && if IsChildPhase(o.phase) then IsHex64(o.child) else o.child == ""
  }

  function Counters(s: Snapshot): (c: seq<nat>)
    ensures |c| == 5
  {
    [s.throttle, s.thermal, s.foreignSchedule, s.foreignContainer, s.monitorLost]
  }

  // ----- the session as a value -----

  datatype Stage = New | Open | AfterChild | Between | Post | Closed | Failed

  datatype EventKind =
    | Throttle | Thermal | ForeignSchedule | ForeignContainer | MonitorLost | CpuMigration
    | FrequencyLimit | PressureLimit | Swap | MemoryLimit | SourceOverflow | MonitorDelay | MonitorDeath

  datatype Violation = DelayExceeded | CounterChanged(field: nat) | Unattributed | Event(kind: EventKind)

  datatype Session = Session(
    stage: Stage, observations: seq<Observation>, ranges: seq<ChildRange>, seen: set<string>, order: seq<string>,
    active: Option<string>, last: Option<Snapshot>, violations: seq<Violation>)

  datatype Config = Config(expected: seq<string>, gap: nat)

  const FRESH := Session(New, [], [], {}, [], None, None, [])

  /** What the lifecycle's constructor demands. */
  predicate ValidConfig(c: Config) {
    && (forall i | 0 <= i < |c.expected| :: IsHex64(c.expected[i]))
    && (forall i, j | 0 <= i < j < |c.expected| :: c.expected[i] != c.expected[j])
    && 0 < c.gap <= MAX_U64
  }

  function Latch(vs: seq<Violation>, v: Violation): seq<Violation> {
    if v in vs then vs else vs + [v]
  }

  function Fail(m: Session): Session { m.(stage := Failed) }

  /** The counter loop from field `i`: latches what grew, and fails at the first reset. */
  function Scan(vs: seq<Violation>, before: seq<nat>, after: seq<nat>, attributed: bool, i: nat): (r: (seq<Violation>, bool))
    requires |before| == |after| == 5 && i <= 5
    decreases 5 - i
  {
    if i == 5 then (vs, true)
    else if after[i] < before[i] then (vs, false)
    else if after[i] == before[i] then Scan(vs, before, after, attributed, i + 1)
    else
      var grown := Latch(vs, CounterChanged(i));
      Scan(if attributed then grown else Latch(grown, Unattributed), before, after, attributed, i + 1)
  }

  predicate TotalsReset(a: Snapshot, b: Snapshot) {
    || b.cpuPressureTotal < a.cpuPressureTotal || b.memoryPressureTotal < a.memoryPressureTotal
    || b.swapRead < a.swapRead || b.swapWrite < a.swapWrite
  }

  /** The checks of one snapshot against the previous one; `true` when no error is raised. */
  function Compare(m: Session, gap: nat, s: Snapshot): (seq<Violation>, bool) {
    if m.last.None? then (m.violations, true)
    else
      var p := m.last.value;
      if s.monotonicNs <= p.monotonicNs then (m.violations, false)
      else
        var vs := if s.monotonicNs - p.monotonicNs > gap then Latch(m.violations, DelayExceeded) else m.violations;
        var (ws, ok) := Scan(vs, Counters(p), Counters(s), m.active.Some?, 0);
        if !ok || TotalsReset(p, s) then (ws, false)
        else if s.swapRead > p.swapRead || s.swapWrite > p.swapWrite then (Latch(ws, Event(Swap)), true)
        else (ws, true)
  }

  /** `_append`: the new session and whether it returned. A full ordinal space raises without failing. */
  function Append(m: Session, gap: nat, phase: Phase, child: string, s: Snapshot): (Session, bool) {
    if m.stage in {New, Closed, Failed} then (Fail(m), false)
    else
      var (vs, ok) := Compare(m, gap, s);
      var w := m.(violations := vs);
      if !ok then (Fail(w), false)
      else if |m.observations| > U32_MAX then (w, false)
      else
        (w.(observations := m.observations + [Observation(|m.observations|, phase, child, s)], last := Some(s)), true)
  }

  // ----- operations -----

  datatype Op =
    | OpenOp
    | PreBuildOp(s: Snapshot)
    | StartOp(child: string, s: Snapshot)
    | SampleOp(s: Snapshot)
    | EndOp(s: Snapshot)
    | BetweenOp(s: Snapshot)
    | PostOp(s: Snapshot)
    | EventOp(kind: EventKind, at: Option<nat>)

  /** The index of the latest start of a child. */
  function StartOf(os: seq<Observation>, child: string): (i: nat)
    ensures i <= |os|
    decreases |os|
  {
    if os == [] then 0
    else if IsStart(os[|os| - 1], child) then |os| - 1
    else
      var i := StartOf(os[..|os| - 1], child);
      if i == |os| - 1 then |os| else i
  }

  predicate IsStart(o: Observation, child: string) { o.phase == ChildStart && o.child == child }

  /** No later observation is a start of the child. */
  lemma {:induction false} StartIsLatest(os: seq<Observation>, child: string)
    ensures var i := StartOf(os, child);
            (i < |os| ==> IsStart(os[i], child)) &&
            (forall j | 0 <= j < |os| :: IsStart(os[j], child) ==> i < |os| && j <= i)
    decreases |os|
  {
    if os != [] && !IsStart(os[|os| - 1], child) {
      var p := os[..|os| - 1];
      StartIsLatest(p, child);
      assert forall j | 0 <= j < |p| :: os[j] == p[j];
    }
  }

  /** One call on the session, and whether it returned without raising. */
  function Do(c: Config, m: Session, op: Op): (Session, bool) {
    match op
    case OpenOp => if m.stage != New then (Fail(m), false) else (m.(stage := Open), true)
    case PreBuildOp(s) =>
      if m.stage != Open || m.observations != [] then (Fail(m), false) else Append(m, c.gap, PreBuild, "", s)
    case StartOp(child, s) =>
      if !IsHex64(child) then (m, false)
      else if m.active.Some? || m.stage !in {Open, Between} then (Fail(m), false)
      else if m.observations == [] || m.observations[0].phase != PreBuild || child in m.seen then (Fail(m), false)
      else if c.expected != [] && (|m.seen| >= |c.expected| || child != c.expected[|m.seen|]) then (Fail(m), false)
      else
        var w := m.(seen := m.seen + {child}, order := m.order + [child], active := Some(child));
        Append(w, c.gap, ChildStart, child, s)
    case SampleOp(s) =>
      if m.active.None? then (Fail(m), false) else Append(m, c.gap, ChildSample, m.active.value, s)
    case EndOp(s) =>
      if m.active.None? then (Fail(m), false)
      else
        var child := m.active.value;
        var (w, ok) := Append(m, c.gap, ChildEnd, child, s);
        if !ok then (w, false)
        else
          (w.(ranges := w.ranges + [ChildRange(child, StartOf(w.observations, child), |w.observations| - 1)],
              active := None, stage := AfterChild), true)
    case BetweenOp(s) =>
      if m.active.Some? || m.stage != AfterChild then (Fail(m), false)
      else
        var (w, ok) := Append(m, c.gap, BetweenChildren, "", s);
        (if ok then w.(stage := Between) else w, ok)
    case PostOp(s) =>
      if m.active.Some? || m.stage !in {AfterChild, Between} then (Fail(m), false)
      else
        var (w, ok) := Append(m, c.gap, PostRun, "", s);
        (if ok then w.(stage := Post) else w, ok)
    case EventOp(kind, at) =>
      if m.stage in {New, Closed, Failed} then (Fail(m), false)
      else if at.Some? && at.value > MAX_U64 then (m, false)
      else if at.Some? && (m.last.None? || at.value < m.last.value.monotonicNs) then (Fail(m), false)
      else
        var vs := if m.active.None? then Latch(m.violations, Unattributed) else m.violations;
        (m.(violations := Latch(vs, Event(kind))), true)
  }

  /** A live session: any sequence of calls, errors included. */
  function Live(c: Config, ops: seq<Op>): Session
    decreases |ops|
  {
    if ops == [] then FRESH else Do(c, Live(c, ops[..|ops| - 1]), ops[|ops| - 1]).0
  }

  // ----- traces -----

  /** Which phase may come right after which. */
  predicate Follows(a: Phase, b: Phase) {
    match a
    case PreBuild => b.ChildStart?
    case ChildStart | ChildSample => b.ChildSample? || b.ChildEnd?
    case ChildEnd => b.BetweenChildren? || b.PostRun?
    case BetweenChildren => b.ChildStart? || b.PostRun?
    case PostRun => false
  }

  /** The started children, in order. */
  function Starts(os: seq<Observation>): seq<string>
    decreases |os|
  {
    if os == [] then []
    else
      var r := Starts(os[..|os| - 1]);
      if os[|os| - 1].phase == ChildStart then r + [os[|os| - 1].child] else r
  }

  predicate Distinct(ids: seq<string>) {
    forall i, j | 0 <= i < j < |ids| :: ids[i] != ids[j]
  }

  /** Two neighbours: a permitted order of phases, and one child from start to end. */
  predicate Neighbours(a: Observation, b: Observation) {
    Follows(a.phase, b.phase) && (b.phase.ChildSample? || b.phase.ChildEnd? ==> b.child == a.child)
  }

  predicate LabelAt(os: seq<Observation>, i: nat)
    requires i < |os|
  {
    os[i].ordinal == i && Labelled(os[i])
  }

  predicate NextOk(os: seq<Observation>, i: nat)
    requires i + 1 < |os|
  {
    Neighbours(os[i], os[i + 1])
  }

  /** The first observations of some trace: shape, labels, dense ordinals, fresh children. */
  predicate Prefix(os: seq<Observation>) {
    && (os != [] ==> os[0].phase == PreBuild)
    && (forall i: nat | i < |os| :: LabelAt(os, i))
    && (forall i: nat | i + 1 < |os| :: NextOk(os, i))
    && Distinct(Starts(os))
  }

  /** Time moves forward within the gap, event and swap counters stand still, pressure totals never fall. */
  predicate Quiet(a: Snapshot, b: Snapshot, gap: nat) {
    && a.monotonicNs < b.monotonicNs && b.monotonicNs - a.monotonicNs <= gap
    && Counters(a) == Counters(b)
    && a.swapRead == b.swapRead && a.swapWrite == b.swapWrite
    && a.cpuPressureTotal <= b.cpuPressureTotal && a.memoryPressureTotal <= b.memoryPressureTotal
  }

  predicate QuietAt(os: seq<Observation>, i: nat, gap: nat)
    requires i + 1 < |os|
  {
    Quiet(os[i].snapshot, os[i + 1].snapshot, gap)
  }

  predicate AllQuiet(os: seq<Observation>, gap: nat) {
    forall i: nat | i + 1 < |os| :: QuietAt(os, i, gap)
  }

  /** The child ranges of a trace, computed from scratch. */
  function RangesOf(os: seq<Observation>): seq<ChildRange>
    decreases |os|
  {
    if os == [] then []
    else
      var r := RangesOf(os[..|os| - 1]);
      var o := os[|os| - 1];
      if o.phase == ChildEnd then r + [ChildRange(o.child, StartOf(os, o.child), |os| - 1)] else r
  }
}
