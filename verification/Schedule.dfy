/** The fixed child schedule and the state that consumes it exactly once. */
module Schedule {
  import opened Common

  datatype Phase = Prepare | Warmup | Sample

  datatype Benchmark = JsonDecode | JsonSoa

  datatype Revision = Baseline | Candidate

  /** One child invocation; `pair` is the sample pair, counted from 1. */
  datatype ChildPlan = ChildPlan(
    sequence: nat, phase: Phase, benchmark: Benchmark, revision: Revision, pair: Option<nat>)

  datatype Product = Product(benchmark: Benchmark, revision: Revision)

  type Digest = string

  const BENCHMARKS: seq<Benchmark> := [JsonDecode, JsonSoa]
  const REVISIONS: seq<Revision> := [Baseline, Candidate]
  const CHILDREN: nat := 48

  function KeyOf(p: ChildPlan): Product { Product(p.benchmark, p.revision) }

  /** The plan at each position: four preparations, then per benchmark two warm-ups and ten pairs. */
  function PlanAt(i: nat): ChildPlan
    requires i < CHILDREN
  {
    if i < 4 then ChildPlan(i, Prepare, BENCHMARKS[i / 2], REVISIONS[i % 2], None)
    else
      var b, j := (i - 4) / 22, (i - 4) % 22;
      if j < 2 then ChildPlan(i, Warmup, BENCHMARKS[b], REVISIONS[j], None)
      else
        var pair := (j - 2) / 2 + 1;
        var first := if pair % 2 == 1 then j % 2 else 1 - j % 2;
        ChildPlan(i, Sample, BENCHMARKS[b], REVISIONS[first], Some(pair))
  }

  function Plans(): (plans: seq<ChildPlan>)
    ensures |plans| == CHILDREN && forall i | 0 <= i < CHILDREN :: plans[i] == PlanAt(i)
  {
    seq(CHILDREN, i requires 0 <= i < CHILDREN => PlanAt(i))
  }

  /** The warm-ups and pairs of one benchmark, numbered from `start`. */
  method MeasuredPlans(b: nat, start: nat) returns (plans: seq<ChildPlan>)
    requires b < 2 && start == 4 + 22 * b
    ensures |plans| == 22 && forall i | 0 <= i < 22 :: plans[i] == PlanAt(start + i)
  {
    plans := [];
    var sequence := start;
    for r := 0 to 2
      invariant |plans| == r && sequence == start + r
      invariant forall i | 0 <= i < r :: plans[i] == PlanAt(start + i)
    {
      plans := plans + [ChildPlan(sequence, Warmup, BENCHMARKS[b], REVISIONS[r], None)];
      sequence := sequence + 1;
    }
    for pair := 1 to 11
      invariant |plans| == 2 * pair && sequence == start + 2 * pair
      invariant forall i | 0 <= i < 2 * pair :: plans[i] == PlanAt(start + i)
    {
      var order := if pair % 2 == 1 then REVISIONS else [Candidate, Baseline];
      plans := plans + [ChildPlan(sequence, Sample, BENCHMARKS[b], order[0], Some(pair)),
                        ChildPlan(sequence + 1, Sample, BENCHMARKS[b], order[1], Some(pair))];
      sequence := sequence + 2;
    }
  }

  /** The preparations of both benchmarks at both revisions. */
  method PreparationPlans() returns (plans: seq<ChildPlan>)
    ensures |plans| == 4 && forall i | 0 <= i < 4 :: plans[i] == PlanAt(i)
  {
    plans := [];
    var sequence := 0;
    for b := 0 to 2
      invariant |plans| == sequence == 2 * b
      invariant forall i | 0 <= i < |plans| :: plans[i] == PlanAt(i)
    {
      for r := 0 to 2
        invariant |plans| == sequence == 2 * b + r
        invariant forall i | 0 <= i < |plans| :: plans[i] == PlanAt(i)
      {
        plans := plans + [ChildPlan(sequence, Prepare, BENCHMARKS[b], REVISIONS[r], None)];
        sequence := sequence + 1;
      }
    }
  }

  /** The plans are those of the first positions. */
  ghost predicate Planned(plans: seq<ChildPlan>) {
    |plans| <= CHILDREN && forall i | 0 <= i < |plans| :: plans[i] == PlanAt(i)
  }

  lemma PlannedGrows(plans: seq<ChildPlan>, more: seq<ChildPlan>)
    requires Planned(plans) && |plans| + |more| <= CHILDREN
    requires forall i | 0 <= i < |more| :: more[i] == PlanAt(|plans| + i)
    ensures Planned(plans + more)
  {
    forall i | 0 <= i < |plans + more|
      ensures (plans + more)[i] == PlanAt(i)
    {
      if i >= |plans| { assert more[i - |plans|] == PlanAt(|plans| + (i - |plans|)); }
    }
  }

  method FullSchedule() returns (plans: seq<ChildPlan>)
    ensures plans == Plans()
  {
    plans := PreparationPlans();
    var sequence := |plans|;
    for b := 0 to 2
      invariant |plans| == sequence == 4 + 22 * b && Planned(plans)
    {
      var measured := MeasuredPlans(b, sequence);
      PlannedGrows(plans, measured);
      plans := plans + measured;
      sequence := sequence + |measured|;
    }
  }

  /** Where the preparation of a product stands. */
  function PrepareIndex(k: Product): (i: nat)
    ensures i < 4 && KeyOf(PlanAt(i)) == k
  {
    (if k.benchmark == JsonDecode then 0 else 2) + (if k.revision == Baseline then 0 else 1)
  }

  /** Each product is prepared exactly once, before every child that measures it. */
  lemma PreparedOnceAndFirst(i: nat)
    requires i < CHILDREN
    ensures PlanAt(i).phase == Prepare <==> i == PrepareIndex(KeyOf(PlanAt(i)))
    ensures PlanAt(i).phase != Prepare ==> PrepareIndex(KeyOf(PlanAt(i))) < i
  {
  }

  lemma PlaceOf(b: nat, j: nat)
    requires b < 2 && j < 22
    ensures (4 + 22 * b + j - 4) / 22 == b && (4 + 22 * b + j - 4) % 22 == j
  {
  }

  /** Sample pairs alternate which revision runs first, and each pair holds both revisions. */
  lemma PairsAlternate(b: nat, pair: nat)
    requires b < 2 && 1 <= pair <= 10
    ensures
      var i := 4 + 22 * b + 2 * pair;
      var (first, second) := (PlanAt(i), PlanAt(i + 1));
      && first.phase == second.phase == Sample
      && first.pair == second.pair == Some(pair)
      && first.benchmark == second.benchmark == BENCHMARKS[b]
      && first.revision == (if pair % 2 == 1 then Baseline else Candidate)
      && second.revision == (if pair % 2 == 1 then Candidate else Baseline)
  {
    PlaceOf(b, 2 * pair);
    PlaceOf(b, 2 * pair + 1);
  }

  /** Where a sample stands: pairs with an odd number run the baseline first. */
  function SampleIndex(b: nat, r: nat, pair: nat): nat
    requires r < 2
  {
    4 + 22 * b + 2 * pair + (if pair % 2 == 1 then r else 1 - r)
  }

  lemma SampleStands(b: nat, r: nat, pair: nat)
    requires b < 2 && r < 2 && 1 <= pair <= 10
    ensures var i := SampleIndex(b, r, pair);
            i < CHILDREN && PlanAt(i) == ChildPlan(i, Sample, BENCHMARKS[b], REVISIONS[r], Some(pair))
  {
    PairsAlternate(b, pair);
  }

  /** A sample's place within its benchmark tells its pair. */
  lemma PairPlace(i: nat)
    requires 4 <= i < CHILDREN && PlanAt(i).phase == Sample
    ensures var j := (i - 4) % 22;
            PlanAt(i).pair.Some? && 2 * PlanAt(i).pair.value <= j <= 2 * PlanAt(i).pair.value + 1 &&
            PlanAt(i).benchmark == BENCHMARKS[(i - 4) / 22]
  {
  }

  /** Every revision of every benchmark is sampled exactly once in each of the ten pairs. */
  lemma SampledOnce(b: nat, r: nat, pair: nat, i: nat)
    requires b < 2 && r < 2 && 1 <= pair <= 10 && i < CHILDREN
    ensures SampleIndex(b, r, pair) < CHILDREN
    ensures PlanAt(i) == ChildPlan(i, Sample, BENCHMARKS[b], REVISIONS[r], Some(pair)) <==> i == SampleIndex(b, r, pair)
  {
    SampleStands(b, r, pair);
    if PlanAt(i) == ChildPlan(i, Sample, BENCHMARKS[b], REVISIONS[r], Some(pair)) {
      PairPlace(i);
      assert (i - 4) / 22 == b;
      SampleStands(b, 1 - r, pair);
    }
  }

  /** Before its samples each benchmark is warmed up once at the baseline and then once at the candidate. */
  lemma WarmedUpOnce(b: nat, r: nat, i: nat)
    requires b < 2 && r < 2 && i < CHILDREN
    ensures PlanAt(i) == ChildPlan(i, Warmup, BENCHMARKS[b], REVISIONS[r], None) <==> i == 4 + 22 * b + r
  {
    PlaceOf(b, r);
  }

  datatype ChildOutcome = ChildOutcome(
    exitCode: nat, signal: Option<nat>, timedOut: bool, truncated: bool, digest: Digest, buildAttempted: bool)

  /** An outcome the schedule can accept for a plan, before digests are compared. */
  predicate Acceptable(p: ChildPlan, o: ChildOutcome) {
    && o.exitCode == 0 && o.signal == None && !o.timedOut && !o.truncated
    && (p.phase == Prepare <==> o.buildAttempted)
    && IsHex64(o.digest)
  }

  class ScheduleState {
    const plans: seq<ChildPlan>
    var cursor: nat
    var active: Option<(ChildPlan, string)>
    var seen: set<string>
    var manifests: map<Product, Digest>
    var failed: bool

    constructor ()
      ensures Valid() && cursor == 0 && active == None && seen == {} && manifests == map[] && !failed
    {
      plans := Plans();
      cursor, active, seen, manifests, failed := 0, None, {}, map[], false;
    }

    /** The sealed products are exactly those whose preparation lies behind the cursor. */
    ghost predicate Valid()
      reads this
    {
      && plans == Plans() && cursor <= CHILDREN
      && (forall k :: k in manifests <==> PrepareIndex(k) < cursor)
      && (active.Some? ==> cursor < CHILDREN && active.value.0 == plans[cursor])
    }

    method Start(plan: ChildPlan, id: string) returns (ok: bool)
      requires Valid()
      modifies this
      ensures Valid() && cursor == old(cursor) && manifests == old(manifests) && failed == old(failed)
      ensures ok <==> !old(failed) && old(active) == None && cursor < CHILDREN && plan == PlanAt(cursor)
                      && IsHex64(id) && id !in old(seen)
      ensures ok ==> active == Some((plan, id)) && seen == old(seen) + {id}
      ensures !ok ==> active == old(active) && seen == old(seen)
    {
      if failed || active != None { return false; }
      if cursor >= |plans| || plan != plans[cursor] { return false; }
      if !IsHex64(id) || id in seen { return false; }
      PreparedOnceAndFirst(cursor);
      if plan.phase != Prepare && KeyOf(plan) !in manifests { return false; }
      seen := seen + {id};
      active := Some((plan, id));
      return true;
    }

    /** A prepare child seals its digest; every later child must show the sealed one. */
    method Finish(o: ChildOutcome) returns (ok: bool)
      requires Valid()
      modifies this
      ensures Valid() && seen == old(seen)
      ensures ok <==> !old(failed) && old(active).Some? && Acceptable(old(active).value.0, o)
                      && (old(active).value.0.phase != Prepare ==>
                            KeyOf(old(active).value.0) in old(manifests)
                            && old(manifests)[KeyOf(old(active).value.0)] == o.digest)
      ensures ok ==> active == None && cursor == old(cursor) + 1 && !failed
      ensures ok ==> manifests == (if old(active).value.0.phase == Prepare
                                   then old(manifests)[KeyOf(old(active).value.0) := o.digest] else old(manifests))
      ensures !ok ==> cursor == old(cursor) && active == old(active) && manifests == old(manifests)
      ensures !ok && old(active).Some? ==> failed
    {
      if failed || active == None { return false; }
      var plan := active.value.0;
      PreparedOnceAndFirst(cursor);
      if o.exitCode != 0 || o.signal != None || o.timedOut || o.truncated
         || (plan.phase == Prepare && !o.buildAttempted) || (plan.phase != Prepare && o.buildAttempted) {
        failed := true;
        return false;
      }
      if !IsHex64(o.digest) {
        failed := true;
        return false;
      }
      var key := KeyOf(plan);
      if plan.phase == Prepare {
        // The refusal of a second preparation cannot be reached: the plans prepare each product once.
        assert key !in manifests;
        manifests := manifests[key := o.digest];
      } else if o.digest != manifests[key] {
        failed := true;
        return false;
      }
      active := None;
      cursor := cursor + 1;
      return true;
    }

    /** The inventory check of the source can only fail while children are left. */
    method FinishAll() returns (ok: bool)
      requires Valid()
      ensures ok <==> !failed && active == None && cursor == CHILDREN
      ensures ok ==> forall k :: k in manifests
    {
      if failed || active != None || cursor != |plans| { return false; }
      return manifests.Keys == {Product(JsonDecode, Baseline), Product(JsonDecode, Candidate),
                                Product(JsonSoa, Baseline), Product(JsonSoa, Candidate)};
    }
  }
}
