/** The field verdict: exact medians and thresholds in u64, from the producer and again from the verifier. */
module Verdict {
  import opened Common
  import opened Decimal
  import opened Text
  import Sampling

  const SAMPLES: nat := 10

  // ----- checked arithmetic -----

  function CheckedAdd(a: nat, b: nat): Option<nat> {
    if a > MAX_U64 - b then None else Some(a + b)
  }

  function CheckedMul(a: nat, b: nat): Option<nat> {
    if a != 0 && b > MAX_U64 / a then None else Some(a * b)
  }

  function CheckedSum(a: nat, b: nat): Option<nat> {
    if a + b > MAX_U64 then None else Some(a + b)
  }

  /** The division test is the multiplication test. */
  lemma QuotientTest(max: nat, a: nat, b: nat)
    requires a > 0
    ensures b > max / a <==> a * b > max
  {
    var q := max / a;
    assert max == q * a + max % a;
    assert (q + 1) * a == q * a + a;
    assert a * b == b * a;
    if b > q { Sampling.MulMono(q + 1, b, a); } else { Sampling.MulMono(b, q, a); }
  }

  /** Refusal happens exactly when the true value leaves the word. */
  lemma CheckedIsExact(a: nat, b: nat)
    ensures CheckedAdd(a, b) == if a + b <= MAX_U64 then Some(a + b) else None
    ensures CheckedMul(a, b) == if a * b <= MAX_U64 then Some(a * b) else None
  {
    if a > 0 { QuotientTest(MAX_U64, a, b); }
  }

  // ----- tokens -----

  function Digits3(n: nat): string
    requires n < 1000
  {
    [DigitOf(n / 100), DigitOf(n / 10 % 10), DigitOf(n % 10)]
  }

  /** Microseconds as milliseconds with three decimals. */
  function Token(us: nat): string { Print(us / 1000) + "." + Digits3(us % 1000) }

  /** A canonical whole part, a point and three digits, naming a positive u64. */
  function FromToken(t: string): Option<nat> {
    var parts := Split(t, '.');
    if |parts| != 2 || !Canonical(parts[0]) || |parts[1]| != 3 || !AllDigits(parts[1]) then None
    else
      var us := Read(parts[0]) * 1000 + Read(parts[1]);
      if us == 0 || us > MAX_U64 then None else Some(us)
  }

  lemma ReadThree(s: string)
    requires |s| == 3 && AllDigits(s)
    ensures Read(s) == DigitValue(s[0]) * 100 + DigitValue(s[1]) * 10 + DigitValue(s[2]) < 1000
  {
    assert s[..2][..1] == s[..1] && s[..1][..0] == "";
    assert s[..2][1] == s[1] && s[..1][0] == s[0];
    assert Read(s[..1]) == DigitValue(s[0]);
    assert Read(s[..2]) == Read(s[..2][..1]) * 10 + DigitValue(s[..2][1]);
  }

  lemma ThreeDigits(x: nat, y: nat, z: nat)
    requires x < 10 && y < 10 && z < 10
    ensures var n := x * 100 + y * 10 + z; n / 100 == x && n / 10 % 10 == y && n % 10 == z
  {
    var n := x * 100 + y * 10 + z;
    assert n / 10 == x * 10 + y;
  }

  lemma DigitsBack(n: nat)
    requires n < 1000
    ensures AllDigits(Digits3(n)) && Read(Digits3(n)) == n && '.' !in Digits3(n)
  {
    ReadThree(Digits3(n));
    assert n == n / 100 * 100 + n / 10 % 10 * 10 + n % 10;
  }

  lemma DigitsOnly(s: string)
    requires |s| == 3 && AllDigits(s)
    ensures Read(s) < 1000 && Digits3(Read(s)) == s
  {
    ReadThree(s);
    var (x, y, z) := (DigitValue(s[0]), DigitValue(s[1]), DigitValue(s[2]));
    var n := Read(s);
    ThreeDigits(x, y, z);
    DigitBack(s[0]);
    DigitBack(s[1]);
    DigitBack(s[2]);
    assert s == [s[0], s[1], s[2]];
  }

  /** A token is read as a sample exactly when it is how the sample is printed. */
  lemma TokenIffSample(t: string, us: nat)
    ensures FromToken(t) == Some(us) <==> 0 < us <= MAX_U64 && t == Token(us)
  {
    if 0 < us <= MAX_U64 && t == Token(us) { TokenBack(us); }
    if FromToken(t) == Some(us) { TokenOnly(t, us); }
  }

  lemma TokenBack(us: nat)
    requires 0 < us <= MAX_U64
    ensures FromToken(Token(us)) == Some(us)
  {
    var (whole, fraction) := (Print(us / 1000), Digits3(us % 1000));
    PrintIsCanonical(us / 1000);
    ReadPrint(us / 1000);
    DigitsBack(us % 1000);
    assert '.' !in whole;
    SplitTwo(Token(us), '.', whole, fraction);
  }

  lemma TokenOnly(t: string, us: nat)
    requires FromToken(t) == Some(us)
    ensures t == Token(us)
  {
    var parts := Split(t, '.');
    assert parts == [parts[0], parts[1]];
    SplitTwo(t, '.', parts[0], parts[1]);
    PrintRead(parts[0]);
    DigitsOnly(parts[1]);
    var (w, f) := (Read(parts[0]), Read(parts[1]));
    assert us / 1000 == w && us % 1000 == f;
  }

  // ----- sorting -----

  predicate Ascending(s: seq<nat>) { forall i, j | 0 <= i < j < |s| :: s[i] <= s[j] }

  function Insert(x: nat, s: seq<nat>): (t: seq<nat>)
    ensures multiset(t) == multiset(s) + multiset{x} && |t| == |s| + 1
  {
    if s == [] || x <= s[0] then [x] + s
    else
      assert s == [s[0]] + s[1..];
      [s[0]] + Insert(x, s[1..])
  }

  function Sort(s: seq<nat>): (t: seq<nat>)
    ensures multiset(t) == multiset(s) && |t| == |s|
  {
    if s == [] then []
    else
      assert s == s[..|s| - 1] + [s[|s| - 1]];
      Insert(s[|s| - 1], Sort(s[..|s| - 1]))
  }

  lemma InsertHolds(x: nat, s: seq<nat>, k: nat)
    requires k <= |s|
    ensures Insert(x, s)[k] == x || Insert(x, s)[k] in s
  {
    assert Insert(x, s)[k] in multiset(Insert(x, s));
  }

  lemma AscendingCons(x: nat, s: seq<nat>)
    requires Ascending(s) && forall k | 0 <= k < |s| :: x <= s[k]
    ensures Ascending([x] + s)
  {
  }

  lemma {:induction false} InsertAscends(x: nat, s: seq<nat>)
    requires Ascending(s)
    ensures Ascending(Insert(x, s))
  {
    if s != [] && x > s[0] {
      var rest := Insert(x, s[1..]);
      InsertAscends(x, s[1..]);
      forall k | 0 <= k < |rest|
        ensures s[0] <= rest[k]
      {
        InsertHolds(x, s[1..], k);
      }
      AscendingCons(s[0], rest);
    }
  }

  lemma {:induction false} SortAscends(s: seq<nat>)
    ensures Ascending(Sort(s))
  {
    if s != [] {
      SortAscends(s[..|s| - 1]);
      InsertAscends(s[|s| - 1], Sort(s[..|s| - 1]));
    }
  }

  // ----- order statistics by counting -----

  /** How many samples are at most `x`. */
  function AtMost(s: seq<nat>, x: nat): nat {
    if s == [] then 0 else AtMost(s[..|s| - 1], x) + (if s[|s| - 1] <= x then 1 else 0)
  }

  lemma {:induction false} InsertCounts(y: nat, s: seq<nat>, x: nat)
    ensures AtMost(Insert(y, s), x) == AtMost(s, x) + (if y <= x then 1 else 0)
  {
    if s == [] || y <= s[0] {
      AtMostCons(y, s, x);
    } else {
      InsertCounts(y, s[1..], x);
      AtMostCons(s[0], Insert(y, s[1..]), x);
      AtMostCons(s[0], s[1..], x);
      assert s == [s[0]] + s[1..];
    }
  }

  lemma {:induction false} AtMostCons(y: nat, s: seq<nat>, x: nat)
    ensures AtMost([y] + s, x) == AtMost(s, x) + (if y <= x then 1 else 0)
  {
    if s == [] {
      assert [y] + s == [y] && [y][..0] == [];
    } else {
      AtMostCons(y, s[..|s| - 1], x);
      assert ([y] + s)[..|s|] == [y] + s[..|s| - 1];
    }
  }

  lemma {:induction false} SortCounts(s: seq<nat>, x: nat)
    ensures AtMost(Sort(s), x) == AtMost(s, x)
  {
    if s != [] {
      SortCounts(s[..|s| - 1], x);
      InsertCounts(s[|s| - 1], Sort(s[..|s| - 1]), x);
    }
  }

  /** In ascending order, position `k` holds at most `x` exactly when more than `k` samples do. */
  lemma {:induction false} AscendingCounts(s: seq<nat>, x: nat, k: nat)
    requires Ascending(s) && k < |s|
    ensures s[k] <= x <==> AtMost(s, x) > k
    ensures AtMost(s, x) <= |s|
  {
    var (front, last) := (s[..|s| - 1], s[|s| - 1]);
    if k < |front| {
      AscendingCounts(front, x, k);
      assert front[k] == s[k] && s[k] <= last;
    } else {
      CountBound(front, x);
      if last <= x { AllCount(front, x); }
    }
  }

  lemma {:induction false} CountBound(s: seq<nat>, x: nat)
    ensures AtMost(s, x) <= |s|
  {
    if s != [] { CountBound(s[..|s| - 1], x); }
  }

  lemma {:induction false} AllCount(s: seq<nat>, x: nat)
    requires forall i | 0 <= i < |s| :: s[i] <= x
    ensures AtMost(s, x) == |s|
  {
    if s != [] { AllCount(s[..|s| - 1], x); }
  }

  predicate Pointwise(s: seq<nat>, t: seq<nat>) { |s| == |t| && forall i | 0 <= i < |s| :: s[i] <= t[i] }

  lemma {:induction false} CountsShrink(s: seq<nat>, t: seq<nat>, x: nat)
    requires Pointwise(s, t)
    ensures AtMost(t, x) <= AtMost(s, x)
  {
    if s != [] { CountsShrink(s[..|s| - 1], t[..|t| - 1], x); }
  }

  /** When samples grow, no order statistic falls. */
  lemma StatisticsGrow(s: seq<nat>, t: seq<nat>, k: nat)
    requires Pointwise(s, t) && k < |s|
    ensures Sort(s)[k] <= Sort(t)[k]
  {
    var x := Sort(t)[k];
    SortAscends(s);
    SortAscends(t);
    AscendingCounts(Sort(t), x, k);
    AscendingCounts(Sort(s), x, k);
    SortCounts(s, x);
    SortCounts(t, x);
    CountsShrink(s, t, x);
  }

  lemma SameLength(s: seq<nat>, t: seq<nat>)
    requires multiset(s) == multiset(t)
    ensures |s| == |t|
  {
    assert |multiset(s)| == |s| && |multiset(t)| == |t|;
  }

  lemma LastIsGreatest(s: seq<nat>, t: seq<nat>)
    requires Ascending(s) && Ascending(t) && s != [] && t != [] && multiset(s) == multiset(t)
    ensures s[|s| - 1] >= t[|t| - 1]
  {
    var y := t[|t| - 1];
    assert y in multiset(t);
    assert y in s;
  }

  lemma FrontsMatch(s: seq<nat>, t: seq<nat>)
    requires s != [] && t != [] && multiset(s) == multiset(t) && s[|s| - 1] == t[|t| - 1]
    ensures multiset(s[..|s| - 1]) == multiset(t[..|t| - 1])
  {
    assert s == s[..|s| - 1] + [s[|s| - 1]];
    assert t == t[..|t| - 1] + [t[|t| - 1]];
    assert multiset(s[..|s| - 1]) == multiset(s) - multiset{s[|s| - 1]};
  }

  lemma {:induction false} AscendingIsUnique(s: seq<nat>, t: seq<nat>)
    requires Ascending(s) && Ascending(t) && multiset(s) == multiset(t)
    ensures s == t
    decreases |s|
  {
    SameLength(s, t);
    if s != [] {
      LastIsGreatest(s, t);
      LastIsGreatest(t, s);
      FrontsMatch(s, t);
      AscendingIsUnique(s[..|s| - 1], t[..|t| - 1]);
      assert s == s[..|s| - 1] + [s[|s| - 1]] && t == t[..|t| - 1] + [t[|t| - 1]];
    }
  }

  /** The sorted samples depend on the multiset alone. */
  lemma SortByMultiset(s: seq<nat>, t: seq<nat>)
    requires multiset(s) == multiset(t)
    ensures Sort(s) == Sort(t)
  {
    SortAscends(s);
    SortAscends(t);
    AscendingIsUnique(Sort(s), Sort(t));
  }

  // ----- the field result -----

  datatype Sample = Sample(token: string, us: nat)

  datatype Field = Field(
    baselineTokens: seq<string>,
    candidateTokens: seq<string>,
    baselineSamples: seq<nat>,
    candidateSamples: seq<nat>,
    baselineSorted: seq<nat>,
    candidateSorted: seq<nat>,
    baselineMiddle: nat,
    candidateMiddle: nat,
    medianDenominator: nat,
    ratioNumerator: nat,
    ratioDenominator: nat,
    thresholdNumerator: nat,
    thresholdDenominator: nat,
    passed: bool)

  function Tokens(s: seq<Sample>): (t: seq<string>)
    ensures |t| == |s|
  {
    seq(|s|, i requires 0 <= i < |s| => s[i].token)
  }

  function Micros(s: seq<Sample>): (t: seq<nat>)
    ensures |t| == |s| && forall i | 0 <= i < |s| :: t[i] == s[i].us
  {
    seq(|s|, i requires 0 <= i < |s| => s[i].us)
  }

  function Middle(sorted: seq<nat>): nat
    requires |sorted| == SAMPLES
  {
    sorted[4] + sorted[5]
  }

  /** The producer's result for one field. */
  function Produce(baseline: seq<Sample>, candidate: seq<Sample>): Option<Field> {
    if |baseline| != SAMPLES || |candidate| != SAMPLES then None
    else
      var (b, c) := (Sort(Micros(baseline)), Sort(Micros(candidate)));
      var (bm, cm) := (CheckedAdd(b[4], b[5]), CheckedAdd(c[4], c[5]));
      if bm.None? || cm.None? then None
      else
        var (left, right) := (CheckedMul(cm.value, 100), CheckedMul(bm.value, 105));
        if left.None? || right.None? then None
        else
          Some(Field(
            Tokens(baseline), Tokens(candidate), Micros(baseline), Micros(candidate), b, c,
            bm.value, cm.value, 2, cm.value, bm.value, 105, 100, left.value <= right.value))
  }

  /** Ten samples, none of them zero, each with its own token. */
  predicate TokensFit(s: seq<Sample>) {
    |s| == SAMPLES && forall i | 0 <= i < |s| :: s[i].us != 0 && s[i].token == Token(s[i].us)
  }

  /** The verifier's test of one field against the measured samples. */
  predicate Verifies(f: Field, baseline: seq<Sample>, candidate: seq<Sample>) {
    TokensFit(baseline) && TokensFit(candidate) &&
    var (b, c) := (Sort(Micros(baseline)), Sort(Micros(candidate)));
    var (bm, cm) := (CheckedSum(b[4], b[5]), CheckedSum(c[4], c[5]));
    bm.Some? && cm.Some? &&
    f.baselineTokens == Tokens(baseline) && f.candidateTokens == Tokens(candidate) &&
    f.baselineSamples == Micros(baseline) && f.candidateSamples == Micros(candidate) &&
    f.baselineSorted == b && f.candidateSorted == c &&
    f.baselineMiddle == bm.value && f.candidateMiddle == cm.value &&
    f.ratioNumerator == cm.value && f.ratioDenominator == bm.value && bm.value != 0 &&
    var (left, right) := (CheckedMul(cm.value, 100), CheckedMul(bm.value, 105));
    left.Some? && right.Some? && f.passed == (left.value <= right.value)
  }

  predicate Measured(s: seq<Sample>) {
    |s| == SAMPLES && forall i | 0 <= i < |s| :: 0 < s[i].us <= MAX_U64 && s[i].token == Token(s[i].us)
  }

  /** The constants the verifier leaves to the report schema. */
  predicate FixedConstants(f: Field) {
    f.medianDenominator == 2 && f.thresholdNumerator == 105 && f.thresholdDenominator == 100
  }

  /** Whether every quantity of the comparison fits in the word. */
  predicate FitsU64(b: seq<nat>, c: seq<nat>)
    requires |b| == SAMPLES && |c| == SAMPLES
  {
    Middle(Sort(b)) * 105 <= MAX_U64 && Middle(Sort(c)) * 100 <= MAX_U64
  }

  predicate Passes(b: seq<nat>, c: seq<nat>)
    requires |b| == SAMPLES && |c| == SAMPLES
  {
    Middle(Sort(c)) * 100 <= Middle(Sort(b)) * 105
  }

  /** A result is produced exactly when nothing overflows, and it passes exactly on the exact comparison. */
  lemma ProducedExactly(baseline: seq<Sample>, candidate: seq<Sample>)
    requires |baseline| == SAMPLES && |candidate| == SAMPLES
    ensures var (b, c) := (Micros(baseline), Micros(candidate));
            var f := Produce(baseline, candidate);
            (f.Some? <==> FitsU64(b, c)) && (f.Some? ==> (f.value.passed <==> Passes(b, c)))
  {
    var (b, c) := (Sort(Micros(baseline)), Sort(Micros(candidate)));
    CheckedIsExact(b[4], b[5]);
    CheckedIsExact(c[4], c[5]);
    CheckedIsExact(Middle(c), 100);
    CheckedIsExact(Middle(b), 105);
  }

  /** The middle of positive samples is positive. */
  lemma MiddleIsPositive(s: seq<nat>)
    requires |s| == SAMPLES && forall i | 0 <= i < |s| :: s[i] > 0
    ensures Middle(Sort(s)) > 0
  {
    assert Sort(s)[4] in multiset(Sort(s));
    assert Sort(s)[4] in s;
  }

  /** The `rank`-th smallest sample, counted from one. */
  predicate IsRank(s: seq<nat>, rank: nat, v: nat) {
    AtMost(s, v) >= rank && (v > 0 ==> AtMost(s, v - 1) < rank)
  }

  lemma StatisticCounts(s: seq<nat>, k: nat, x: nat)
    requires k < |s|
    ensures Sort(s)[k] <= x <==> AtMost(s, x) > k
  {
    SortAscends(s);
    SortCounts(s, x);
    AscendingCounts(Sort(s), x, k);
  }

  lemma RankByCounts(s: seq<nat>, k: nat, v: nat)
    requires forall x: nat :: v <= x <==> AtMost(s, x) > k
    ensures IsRank(s, k + 1, v)
  {
  }

  lemma StatisticIsRank(s: seq<nat>, k: nat)
    requires k < |s|
    ensures IsRank(s, k + 1, Sort(s)[k])
  {
    forall x: nat
      ensures Sort(s)[k] <= x <==> AtMost(s, x) > k
    {
      StatisticCounts(s, k, x);
    }
    RankByCounts(s, k, Sort(s)[k]);
  }

  /** The middle of ten samples is twice their median: the fifth and the sixth smallest together. */
  lemma MiddleIsMedian(s: seq<nat>) returns (fifth: nat, sixth: nat)
    requires |s| == SAMPLES
    ensures IsRank(s, 5, fifth) && IsRank(s, 6, sixth) && Middle(Sort(s)) == fifth + sixth
  {
    fifth, sixth := Sort(s)[4], Sort(s)[5];
    StatisticIsRank(s, 4);
    StatisticIsRank(s, 5);
  }

  lemma VerifiedIsProduced(baseline: seq<Sample>, candidate: seq<Sample>, f: Field)
    requires Verifies(f, baseline, candidate) && FixedConstants(f)
    ensures Produce(baseline, candidate) == Some(f)
  {
    var (b, c) := (Sort(Micros(baseline)), Sort(Micros(candidate)));
    CheckedIsExact(b[4], b[5]);
    CheckedIsExact(c[4], c[5]);
  }

  lemma MeasuredFits(s: seq<Sample>)
    requires Measured(s)
    ensures TokensFit(s) && Middle(Sort(Micros(s))) > 0
  {
    MiddleIsPositive(Micros(s));
  }

  lemma ProducedVerifies(baseline: seq<Sample>, candidate: seq<Sample>, f: Field)
    requires Measured(baseline) && Measured(candidate) && Produce(baseline, candidate) == Some(f)
    ensures Verifies(f, baseline, candidate) && FixedConstants(f)
  {
    MeasuredFits(baseline);
    MeasuredFits(candidate);
    var (b, c) := (Sort(Micros(baseline)), Sort(Micros(candidate)));
    CheckedIsExact(b[4], b[5]);
    CheckedIsExact(c[4], c[5]);
  }

  /**
   On measured samples the verifier accepts exactly the producer's result: a field with the fixed
   constants verifies if and only if it is the one produced.
   */
  lemma ProducerMeetsVerifier(baseline: seq<Sample>, candidate: seq<Sample>, f: Field)
    requires Measured(baseline) && Measured(candidate)
    ensures Verifies(f, baseline, candidate) && FixedConstants(f) <==> Produce(baseline, candidate) == Some(f)
  {
    if Verifies(f, baseline, candidate) && FixedConstants(f) { VerifiedIsProduced(baseline, candidate, f); }
    if Produce(baseline, candidate) == Some(f) { ProducedVerifies(baseline, candidate, f); }
  }

  lemma SameMiddle(s: seq<nat>, t: seq<nat>)
    requires |s| == SAMPLES && multiset(s) == multiset(t)
    ensures |t| == SAMPLES && Middle(Sort(s)) == Middle(Sort(t))
  {
    SameLength(s, t);
    SortByMultiset(s, t);
  }

  lemma PassesByMiddles(b: seq<nat>, c: seq<nat>, d: seq<nat>, e: seq<nat>)
    requires |b| == SAMPLES && |c| == SAMPLES && |d| == SAMPLES && |e| == SAMPLES
    requires Middle(Sort(b)) == Middle(Sort(d)) && Middle(Sort(c)) == Middle(Sort(e))
    ensures (FitsU64(b, c) <==> FitsU64(d, e)) && (Passes(b, c) <==> Passes(d, e))
  {
  }

  /** `passed` depends on the two multisets of samples alone. */
  lemma PassesByMultiset(b: seq<nat>, c: seq<nat>, d: seq<nat>, e: seq<nat>)
    requires |b| == SAMPLES && |c| == SAMPLES && multiset(b) == multiset(d) && multiset(c) == multiset(e)
    ensures |d| == SAMPLES && |e| == SAMPLES
    ensures (FitsU64(b, c) <==> FitsU64(d, e)) && (Passes(b, c) <==> Passes(d, e))
  {
    SameMiddle(b, d);
    SameMiddle(c, e);
    PassesByMiddles(b, c, d, e);
  }

  /** Growing candidate samples never turn a failure into a pass; growing baseline samples never the reverse. */
  lemma PassesIsMonotone(b: seq<nat>, c: seq<nat>, higher: seq<nat>, worse: seq<nat>)
    requires |b| == SAMPLES && |c| == SAMPLES && Pointwise(b, higher) && Pointwise(c, worse)
    ensures Passes(b, worse) ==> Passes(b, c)
    ensures Passes(b, c) ==> Passes(higher, c)
  {
    StatisticsGrow(b, higher, 4);
    StatisticsGrow(b, higher, 5);
    StatisticsGrow(c, worse, 4);
    StatisticsGrow(c, worse, 5);
  }

  // ----- all fields -----

  datatype Arms = Arms(baseline: seq<Sample>, candidate: seq<Sample>)

  /** The loop over the fields stops at the first one refused. */
  method FieldResults(records: seq<Arms>) returns (r: Option<seq<Field>>)
    ensures r.Some? <==> forall i | 0 <= i < |records| :: Produce(records[i].baseline, records[i].candidate).Some?
    ensures r.Some? ==>
              |r.value| == |records| &&
              forall i | 0 <= i < |records| :: Produce(records[i].baseline, records[i].candidate) == Some(r.value[i])
  {
    var result: seq<Field> := [];
    var i := 0;
    while i < |records|
      invariant 0 <= i == |result| <= |records|
      invariant forall k | 0 <= k < i :: Produce(records[k].baseline, records[k].candidate) == Some(result[k])
    {
      var f := Produce(records[i].baseline, records[i].candidate);
      if f.None? { return None; }
      result := result + [f.value];
      i := i + 1;
    }
    return Some(result);
  }
}
