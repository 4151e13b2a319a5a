/** What the monitor holds against a session: exactly the events and the changes between snapshots. */
module MonitorEvents {
  import opened Common
  import opened Monitor
  import opened MonitorReplay

  // ----- events -----

  /** When an event is taken: the session is open, and a given time fits and is not before the last snapshot. */
  predicate Timely(m: Session, at: Option<nat>) {
    && m.stage !in {New, Closed, Failed}
    && (at.Some? ==> at.value <= MAX_U64 && m.last.Some? && m.last.value.monotonicNs <= at.value)
  }

  /** A taken event is held against the session, and so is the want of a child to charge it to; nothing else changes. */
  lemma EventIsHeld(c: Config, m: Session, kind: EventKind, at: Option<nat>)
    ensures
      var (w, ok) := Do(c, m, EventOp(kind, at));
      && (ok <==> Timely(m, at))
      && (ok ==> w == m.(violations := w.violations))
      && (ok ==> forall v :: v in w.violations <==>
                   v in m.violations || v == Event(kind) || (v == Unattributed && m.active.None?))
  {
  }

  lemma {:induction false} TakenIsLatched(c: Config, ops: seq<Op>, op: Op)
    requires op.EventOp? && Do(c, Live(c, ops), op).1
    ensures Live(c, ops + [op]).violations != []
  {
    EventIsHeld(c, Live(c, ops), op.kind, op.at);
    assert (ops + [op])[..|ops|] == ops;
    assert Event(op.kind) in Do(c, Live(c, ops), op).0.violations;
  }

  /** In a session that finishes, no event was ever taken. */
  lemma {:induction false} FinishedTookNoEvent(c: Config, before: seq<Op>, op: Op, after: seq<Op>)
    requires op.EventOp? && FinishOk(c, Live(c, before + [op] + after))
    ensures !Do(c, Live(c, before), op).1
  {
    if Do(c, Live(c, before), op).1 {
      TakenIsLatched(c, before, op);
      LatchedNeverFinishes(c, before + [op], after);
    }
  }

  // ----- changes between snapshots -----

  /** What two neighbouring snapshots show. */
  predicate Shows(p: Snapshot, s: Snapshot, gap: nat, attributed: bool, v: Violation) {
    match v
    case DelayExceeded => s.monotonicNs - p.monotonicNs > gap
    case CounterChanged(i) => i < 5 && Counters(p)[i] < Counters(s)[i]
    case Unattributed => !attributed && Grew(p, s)
    case Event(kind) => kind == Swap && Swapped(p, s)
  }

  predicate Grew(p: Snapshot, s: Snapshot) { exists i :: 0 <= i < 5 && Counters(p)[i] < Counters(s)[i] }

  /** What the counters from `i` on show. */
  predicate ShownFrom(before: seq<nat>, after: seq<nat>, attributed: bool, i: nat, v: Violation)
    requires |before| == |after| == 5
  {
    match v
    case CounterChanged(j) => i <= j < 5 && before[j] < after[j]
    case Unattributed => !attributed && exists j :: i <= j < 5 && before[j] < after[j]
    case _ => false
  }

  lemma {:induction false} ScanExactly(
      vs: seq<Violation>, before: seq<nat>, after: seq<nat>, attributed: bool, i: nat, v: Violation)
    requires |before| == |after| == 5 && i <= 5 && Scan(vs, before, after, attributed, i).1
    ensures v in Scan(vs, before, after, attributed, i).0 <==> v in vs || ShownFrom(before, after, attributed, i, v)
    decreases 5 - i
  {
    if i < 5 {
      var grown := Latch(vs, CounterChanged(i));
      var next := if after[i] == before[i] then vs else if attributed then grown else Latch(grown, Unattributed);
      ScanExactly(next, before, after, attributed, i + 1, v);
    }
  }

  predicate Swapped(p: Snapshot, s: Snapshot) { p.swapRead < s.swapRead || p.swapWrite < s.swapWrite }

  lemma ShowsInParts(p: Snapshot, s: Snapshot, gap: nat, attributed: bool, v: Violation)
    ensures Shows(p, s, gap, attributed, v) <==>
              || (v == DelayExceeded && s.monotonicNs - p.monotonicNs > gap)
              || ShownFrom(Counters(p), Counters(s), attributed, 0, v)
              || (v == Event(Swap) && Swapped(p, s))
  {
  }

  /** A snapshot without error adds exactly what it shows against the last one. */
  lemma {:induction false} CompareExactly(m: Session, gap: nat, s: Snapshot, v: Violation)
    requires Compare(m, gap, s).1
    ensures v in Compare(m, gap, s).0 <==>
              v in m.violations || (m.last.Some? && Shows(m.last.value, s, gap, m.active.Some?, v))
  {
    if m.last.Some? {
      var p := m.last.value;
      var vs := if s.monotonicNs - p.monotonicNs > gap then Latch(m.violations, DelayExceeded) else m.violations;
      var ws := Scan(vs, Counters(p), Counters(s), m.active.Some?, 0).0;
      assert Compare(m, gap, s).0 == if Swapped(p, s) then Latch(ws, Event(Swap)) else ws;
      ScanExactly(vs, Counters(p), Counters(s), m.active.Some?, 0, v);
      ShowsInParts(p, s, gap, m.active.Some?, v);
    }
  }

  /** The errors: time stands still or goes back, or a counter or a total is reset. */
  predicate Inconsistent(p: Snapshot, s: Snapshot) {
    s.monotonicNs <= p.monotonicNs || TotalsReset(p, s) || exists i :: 0 <= i < 5 && Counters(s)[i] < Counters(p)[i]
  }

  lemma {:induction false} ScanFails(vs: seq<Violation>, before: seq<nat>, after: seq<nat>, attributed: bool, i: nat)
    requires |before| == |after| == 5 && i <= 5
    ensures Scan(vs, before, after, attributed, i).1 <==> forall j | i <= j < 5 :: before[j] <= after[j]
    decreases 5 - i
  {
    if i < 5 && after[i] >= before[i] {
      var grown := Latch(vs, CounterChanged(i));
      ScanFails(if after[i] == before[i] then vs else if attributed then grown else Latch(grown, Unattributed),
                before, after, attributed, i + 1);
    }
  }

  /** A snapshot raises exactly when it is inconsistent with the last one. */
  lemma {:induction false} CompareFailsIff(m: Session, gap: nat, s: Snapshot)
    ensures !Compare(m, gap, s).1 <==> m.last.Some? && Inconsistent(m.last.value, s)
  {
    if m.last.Some? && s.monotonicNs > m.last.value.monotonicNs {
      var p := m.last.value;
      var vs := if s.monotonicNs - p.monotonicNs > gap then Latch(m.violations, DelayExceeded) else m.violations;
      ScanFails(vs, Counters(p), Counters(s), m.active.Some?, 0);
    }
  }
}
