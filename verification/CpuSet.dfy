/** Canonical CPU-set strings and the interval algebra behind them. */
module CpuSet {
  import opened Common
  import opened Decimal
  import opened Text
  import Sampling

  datatype Interval = Interval(start: nat, end: nat)

  type Ranges = seq<Interval>

  // ----- the string form -----

  /** One item: a numeral, or two numerals around a dash. */
  function ParseItem(item: string): Option<Interval> {
    var bounds := Split(item, '-');
    if |bounds| > 2 || !Canonical(bounds[0]) || !Canonical(bounds[|bounds| - 1]) then None
    else
      var (start, end) := (Read(bounds[0]), Read(bounds[|bounds| - 1]));
      if |bounds| == 2 && start == end then None else Some(Interval(start, end))
  }

  predicate After(previous: Option<Interval>, i: Interval) {
    i.start <= i.end && (previous.Some? ==> previous.value.end + 1 < i.start)
  }

  function ParseItems(items: seq<string>, previous: Option<Interval>): Option<Ranges>
    decreases |items|
  {
    if items == [] then Some([])
    else
      match ParseItem(items[0])
      case None => None
      case Some(i) =>
        if !After(previous, i) then None
        else
          match ParseItems(items[1..], Some(i))
          case None => None
          case Some(rest) => Some([i] + rest)
  }

  function Parse(s: string): Option<Ranges> { ParseItems(Split(s, ','), None) }

  function Append(a: Ranges, b: Option<Ranges>): Option<Ranges> {
    match b
    case None => None
    case Some(rest) => Some(a + rest)
  }

  /** The loop over the items. */
  method ParseCpuSet(s: string) returns (r: Option<Ranges>)
    ensures r == Parse(s)
  {
    var items := Split(s, ',');
    var intervals: Ranges := [];
    var k := 0;
    ghost var goal := Parse(s);
    assert items[0..] == items;
    AppendNothing(goal);
    while k < |items|
      invariant 0 <= k <= |items|
      invariant goal == Append(intervals, ParseItems(items[k..], Last(intervals)))
    {
      ParseNext(items, k, Last(intervals));
      var i := ParseItem(items[k]);
      if i.None? || !After(Last(intervals), i.value) { return None; }
      AppendOne(intervals, i.value, ParseItems(items[k + 1..], Some(i.value)));
      intervals := intervals + [i.value];
      k := k + 1;
    }
    assert intervals + [] == intervals;
    assert items[k..] == [];
    return Some(intervals);
  }

  lemma ParseNext(items: seq<string>, k: nat, previous: Option<Interval>)
    requires k < |items|
    ensures var i := ParseItem(items[k]);
            ParseItems(items[k..], previous) ==
            if i.None? || !After(previous, i.value) then None
            else Append([i.value], ParseItems(items[k + 1..], i))
  {
    assert items[k..][0] == items[k] && items[k..][1..] == items[k + 1..];
  }

  function Last(rs: Ranges): Option<Interval> { if rs == [] then None else Some(rs[|rs| - 1]) }

  lemma AppendNothing(b: Option<Ranges>)
    ensures Append([], b) == b
  {
    if b.Some? { assert [] + b.value == b.value; }
  }

  lemma AppendOne(a: Ranges, i: Interval, b: Option<Ranges>)
    ensures Append(a, Append([i], b)) == Append(a + [i], b)
  {
    if b.Some? { assert a + ([i] + b.value) == a + [i] + b.value; }
  }

  /** Ordered, disjoint and not adjacent. */
  predicate Coalesced(rs: Ranges, previous: Option<Interval>)
    decreases |rs|
  {
    rs == [] || (After(previous, rs[0]) && Coalesced(rs[1..], Some(rs[0])))
  }

  function ShowItem(i: Interval): string {
    if i.start == i.end then Print(i.start) else Print(i.start) + "-" + Print(i.end)
  }

  function ShowItems(rs: Ranges): (items: seq<string>)
    ensures |items| == |rs| && forall k | 0 <= k < |rs| :: items[k] == ShowItem(rs[k])
  {
    seq(|rs|, k requires 0 <= k < |rs| => ShowItem(rs[k]))
  }

  function Show(rs: Ranges): string
    requires rs != []
  {
    Joined(ShowItems(rs), ',')
  }

  lemma PlainNumeral(n: nat)
    ensures Canonical(Print(n)) && '-' !in Print(n) && ',' !in Print(n) && Read(Print(n)) == n
  {
    PrintIsCanonical(n);
    ReadPrint(n);
  }

  lemma ItemBack(i: Interval)
    ensures ParseItem(ShowItem(i)) == Some(i) && ',' !in ShowItem(i)
  {
    PlainNumeral(i.start);
    PlainNumeral(i.end);
    FindsFirst(Print(i.start), '-');
    if i.start != i.end { SplitTwo(ShowItem(i), '-', Print(i.start), Print(i.end)); }
  }

  lemma ItemOnly(item: string, i: Interval)
    requires ParseItem(item) == Some(i)
    ensures ShowItem(i) == item
  {
    var bounds := Split(item, '-');
    PrintRead(bounds[0]);
    if |bounds| == 2 {
      assert bounds == [bounds[0], bounds[1]];
      PrintRead(bounds[1]);
      SplitTwo(item, '-', bounds[0], bounds[1]);
    } else {
      assert Find(item, '-') < 0;
    }
  }

  lemma {:induction false} ItemsBack(rs: Ranges, previous: Option<Interval>)
    requires Coalesced(rs, previous)
    ensures ParseItems(ShowItems(rs), previous) == Some(rs)
    decreases |rs|
  {
    if rs != [] {
      ItemBack(rs[0]);
      assert ShowItems(rs)[1..] == ShowItems(rs[1..]);
      ItemsBack(rs[1..], Some(rs[0]));
      assert rs == [rs[0]] + rs[1..];
    }
  }

  lemma {:induction false} ItemsOnly(items: seq<string>, previous: Option<Interval>, rs: Ranges)
    requires ParseItems(items, previous) == Some(rs)
    ensures Coalesced(rs, previous) && ShowItems(rs) == items
    decreases |items|
  {
    if items != [] {
      var i := ParseItem(items[0]).value;
      var rest := ParseItems(items[1..], Some(i)).value;
      ItemsOnly(items[1..], Some(i), rest);
      ItemOnly(items[0], i);
      assert rs[1..] == rest;
      assert ShowItems(rs) == [items[0]] + ShowItems(rest);
    }
  }

  /** A string is accepted as these ranges exactly when they are coalesced and it is how they are written. */
  lemma ParseIffShown(s: string, rs: Ranges)
    ensures Parse(s) == Some(rs) <==> rs != [] && Coalesced(rs, None) && s == Show(rs)
  {
    if rs != [] && Coalesced(rs, None) && s == Show(rs) {
      forall k | 0 <= k < |rs|
        ensures ',' !in ShowItems(rs)[k]
      {
        ItemBack(rs[k]);
      }
      SplitJoined(ShowItems(rs), ',');
      ItemsBack(rs, None);
    }
    if Parse(s) == Some(rs) {
      ItemsOnly(Split(s, ','), None, rs);
      JoinedSplit(s, ',');
    }
  }

  // ----- intervals as sets -----

  predicate Within(i: Interval, x: nat) { i.start <= x <= i.end }

  predicate Contains(rs: Ranges, x: nat) { exists k :: 0 <= k < |rs| && Within(rs[k], x) }

  predicate Gap(rs: Ranges, j: nat, k: nat)
    requires j < k < |rs|
  {
    rs[j].end + 1 < rs[k].start
  }

  /** Every two intervals are ordered with a gap between them. */
  predicate Apart(rs: Ranges) {
    (forall k | 0 <= k < |rs| :: rs[k].start <= rs[k].end) &&
    (forall j, k | 0 <= j < k < |rs| :: Gap(rs, j, k))
  }

  lemma ApartPrefix(rs: Ranges, n: nat)
    requires Apart(rs) && n <= |rs|
    ensures Apart(rs[..n])
  {
    forall j, k | 0 <= j < k < n
      ensures Gap(rs[..n], j, k)
    {
      assert Gap(rs, j, k);
    }
  }

  lemma {:induction false} CoalescedIsApart(rs: Ranges, previous: Option<Interval>)
    requires Coalesced(rs, previous)
    ensures Apart(rs) && (previous.Some? ==> forall k | 0 <= k < |rs| :: previous.value.end + 1 < rs[k].start)
    decreases |rs|
  {
    if rs != [] {
      var rest := rs[1..];
      CoalescedIsApart(rest, Some(rs[0]));
      assert forall k | 0 < k < |rs| :: rs[k] == rest[k - 1];
      forall j, k | 0 <= j < k < |rs|
        ensures Gap(rs, j, k)
      {
        if j > 0 { assert Gap(rest, j - 1, k - 1); }
      }
    }
  }

  /** No member lies in two intervals, nor just after one. */
  lemma OneInterval(rs: Ranges, j: nat, k: nat, x: nat)
    requires Apart(rs) && j < |rs| && k < |rs| && Within(rs[j], x)
    ensures Within(rs[k], x) || x == rs[k].end + 1 ==> j == k
  {
    if j < k { assert Gap(rs, j, k); }
    if k < j { assert Gap(rs, k, j); }
  }

  // ----- inclusion -----

  predicate Inside(i: Interval, rs: Ranges) { exists k :: 0 <= k < |rs| && Covers(rs[k], i) }

  predicate Covers(o: Interval, i: Interval) { o.start <= i.start && i.end <= o.end }

  /** The test: each interval lies inside one interval of the other set. */
  predicate Subset(a: Ranges, b: Ranges) { forall k | 0 <= k < |a| :: Inside(a[k], b) }

  ghost predicate Includes(b: Ranges, a: Ranges) { forall x | Contains(a, x) :: Contains(b, x) }

  /** An unbroken run of members lies in one interval, because intervals are kept apart. */
  lemma RunIsInside(i: Interval, rs: Ranges)
    requires Apart(rs) && i.start <= i.end && forall x | Within(i, x) :: Contains(rs, x)
    ensures Inside(i, rs)
  {
    assert Within(i, i.start);
    var k :| 0 <= k < |rs| && Within(rs[k], i.start);
    var next := rs[k].end + 1;
    if Within(i, next) {
      var j :| 0 <= j < |rs| && Within(rs[j], next);
      OneInterval(rs, j, k, next);
    }
    assert Covers(rs[k], i);
  }

  /** The interval test is set inclusion. */
  lemma SubsetIsInclusion(a: Ranges, b: Ranges)
    requires Apart(a) && Apart(b)
    ensures Subset(a, b) <==> Includes(b, a)
  {
    if Includes(b, a) {
      forall k | 0 <= k < |a|
        ensures Inside(a[k], b)
      {
        assert forall x | Within(a[k], x) :: Contains(a, x);
        RunIsInside(a[k], b);
      }
    }
    if Subset(a, b) {
      forall x | Contains(a, x)
        ensures Contains(b, x)
      {
        var k :| 0 <= k < |a| && Within(a[k], x);
        assert Inside(a[k], b);
        var j :| 0 <= j < |b| && Covers(b[j], a[k]);
        assert Within(b[j], x);
      }
    }
  }

  // ----- one string per set -----

  lemma FrontContains(rs: Ranges, x: nat)
    requires Apart(rs) && rs != []
    ensures Contains(rs[..|rs| - 1], x) <==> Contains(rs, x) && !Within(rs[|rs| - 1], x)
  {
    var (front, n) := (rs[..|rs| - 1], |rs| - 1);
    if Contains(front, x) {
      var k :| 0 <= k < n && Within(front[k], x);
      assert Within(rs[k], x);
      OneInterval(rs, k, n, x);
    }
    if Contains(rs, x) && !Within(rs[n], x) {
      var k :| 0 <= k < |rs| && Within(rs[k], x);
      assert Within(front[k], x);
    }
  }

  lemma InsideLast(i: Interval, rs: Ranges)
    requires Apart(rs) && rs != [] && i.start <= i.end && Inside(i, rs)
    ensures var last := rs[|rs| - 1]; i.end <= last.end && (i.end == last.end ==> last.start <= i.start)
  {
    var k :| 0 <= k < |rs| && Covers(rs[k], i);
    if k < |rs| - 1 { assert Gap(rs, k, |rs| - 1); }
  }

  lemma SameLast(a: Ranges, b: Ranges)
    requires Apart(a) && Apart(b) && a != [] && b != [] && Includes(a, b) && Includes(b, a)
    ensures a[|a| - 1] == b[|b| - 1]
  {
    SubsetIsInclusion(a, b);
    SubsetIsInclusion(b, a);
    assert Inside(a[|a| - 1], b) && Inside(b[|b| - 1], a);
    InsideLast(a[|a| - 1], b);
    InsideLast(b[|b| - 1], a);
  }

  /** Equal sets have equal intervals. */
  lemma {:induction false} SameSetSameRanges(a: Ranges, b: Ranges)
    requires Apart(a) && Apart(b) && Includes(a, b) && Includes(b, a)
    ensures a == b
    decreases |a|
  {
    NotEmpty(a);
    NotEmpty(b);
    if a != [] && b != [] {
      SameLast(a, b);
      var (fa, fb) := (a[..|a| - 1], b[..|b| - 1]);
      ApartPrefix(a, |a| - 1);
      ApartPrefix(b, |b| - 1);
      forall x
        ensures Contains(fa, x) <==> Contains(fb, x)
      {
        FrontContains(a, x);
        FrontContains(b, x);
      }
      SameSetSameRanges(fa, fb);
      assert a == fa + [a[|a| - 1]] && b == fb + [b[|b| - 1]];
    }
  }

  lemma NotEmpty(rs: Ranges)
    requires Apart(rs)
    ensures rs != [] ==> Contains(rs, rs[0].start)
  {
    if rs != [] { assert Within(rs[0], rs[0].start); }
  }

  // ----- counting -----


  /** The set of CPUs, interval by interval. */
  function Members(rs: Ranges): set<nat> {
    if rs == [] then {}
    else
      var last := rs[|rs| - 1];
      Members(rs[..|rs| - 1]) + (if last.start <= last.end then Sampling.Run(last.start, last.end - last.start + 1) else {})
  }

  lemma {:induction false} MembersContains(rs: Ranges, x: nat)
    requires Apart(rs)
    ensures x in Members(rs) <==> Contains(rs, x)
  {
    if rs != [] {
      ApartPrefix(rs, |rs| - 1);
      MembersContains(rs[..|rs| - 1], x);
      FrontContains(rs, x);
      assert Within(rs[|rs| - 1], x) ==> Contains(rs, x);
    }
  }

  lemma CountGrows(rs: Ranges, k: nat)
    requires Apart(rs) && k < |rs|
    ensures |Members(rs[..k + 1])| == |Members(rs[..k])| + (rs[k].end - rs[k].start + 1)
  {
    var longer := rs[..k + 1];
    assert longer[..k] == rs[..k];
    var run := Sampling.Run(rs[k].start, rs[k].end - rs[k].start + 1);
    forall x | x in Members(rs[..k])
      ensures x !in run
    {
      ApartPrefix(rs, k);
      ApartPrefix(rs, k + 1);
      MembersContains(rs[..k], x);
      FrontContains(longer, x);
    }
    assert Members(rs[..k]) !! run;
  }

  lemma {:induction false} CountIsMonotone(rs: Ranges, k: nat)
    requires Apart(rs) && k <= |rs|
    ensures |Members(rs[..k])| <= |Members(rs)|
    decreases |rs| - k
  {
    if k < |rs| {
      CountGrows(rs, k);
      CountIsMonotone(rs, k + 1);
    } else {
      assert rs[..k] == rs;
    }
  }

  /** The running total is the number of members, refused exactly when it leaves the word. */
  method Count(rs: Ranges) returns (r: Option<nat>)
    requires Apart(rs)
    ensures r == if |Members(rs)| <= MAX_U64 then Some(|Members(rs)|) else None
  {
    var total := 0;
    var k := 0;
    while k < |rs|
      invariant 0 <= k <= |rs| && total == |Members(rs[..k])| <= MAX_U64
    {
      CountGrows(rs, k);
      total := total + rs[k].end - rs[k].start + 1;
      if total > MAX_U64 {
        CountIsMonotone(rs, k + 1);
        return None;
      }
      k := k + 1;
    }
    assert rs[..k] == rs;
    return Some(total);
  }

  // ----- on accepted strings -----

  /**
   On accepted strings: the interval test is inclusion of the two CPU sets, and the strings are equal
   exactly when the sets are.
   */
  lemma AcceptedStrings(s: string, t: string, a: Ranges, b: Ranges)
    requires Parse(s) == Some(a) && Parse(t) == Some(b)
    ensures Apart(a) && Apart(b) && a != [] && b != []
    ensures Subset(a, b) <==> Members(a) <= Members(b)
    ensures Members(a) == Members(b) <==> s == t
  {
    ParseIffShown(s, a);
    ParseIffShown(t, b);
    CoalescedIsApart(a, None);
    CoalescedIsApart(b, None);
    InclusionOfMembers(a, b);
    InclusionOfMembers(b, a);
    SubsetIsInclusion(a, b);
    if Members(a) == Members(b) { SameSetSameRanges(a, b); }
  }

  lemma InclusionOfMembers(a: Ranges, b: Ranges)
    requires Apart(a) && Apart(b)
    ensures Includes(b, a) <==> Members(a) <= Members(b)
  {
    forall x: nat
      ensures x in Members(a) <==> Contains(a, x)
      ensures x in Members(b) <==> Contains(b, x)
    {
      MembersContains(a, x);
      MembersContains(b, x);
    }
  }

  // ----- the records of the selected CPUs -----

  /** A record's identity, or nothing when one of its fields is malformed. */
  type Identify<!R, !I> = R -> Option<I>

  /**
   With as many selected records as selected CPUs, every selected CPU has a record; so the check
   passes exactly when each of them has a record that matches the profile. The result is the record
   of the lowest CPU.
   */
  method SelectedCpuFields<R, I(==)>(records: map<nat, R>, rs: Ranges, identify: Identify<R, I>, expected: I)
    returns (r: Option<R>)
    requires Apart(rs) && rs != []
    ensures r.Some? <==>
              |Members(rs)| <= MAX_U64 &&
              forall cpu | cpu in Members(rs) :: cpu in records && identify(records[cpu]) == Some(expected)
    ensures r.Some? ==> rs[0].start in records && r.value == records[rs[0].start]
    ensures forall cpu | cpu in Members(rs) :: rs[0].start <= cpu
  {
    forall cpu | cpu in Members(rs)
      ensures rs[0].start <= cpu
    {
      FirstIsSmallest(rs, cpu);
    }
    var selected := set cpu | cpu in records && Contains(rs, cpu);
    var count := Count(rs);
    forall cpu: nat
      ensures cpu in Members(rs) <==> Contains(rs, cpu)
    {
      MembersContains(rs, cpu);
    }
    assert selected <= Members(rs);
    if count.None? { return None; }
    if |selected| != count.value {
      assert selected != Members(rs);
      var missing :| missing in Members(rs) && missing !in selected;
      return None;
    }
    SubsetOfSameSize(selected, Members(rs));
    var rest := selected;
    while rest != {}
      invariant rest <= selected
      invariant forall cpu | cpu in selected - rest :: identify(records[cpu]) == Some(expected)
      decreases rest
    {
      var cpu :| cpu in rest;
      if identify(records[cpu]) != Some(expected) { return None; }
      rest := rest - {cpu};
    }
    NotEmpty(rs);
    return Some(records[rs[0].start]);
  }

  lemma SubsetOfSameSize(a: set<nat>, b: set<nat>)
    requires a <= b && |a| == |b|
    ensures a == b
  {
    assert b == a + (b - a);
    assert |b| == |a| + |b - a|;
  }

  /** The first interval starts at the smallest selected CPU. */
  lemma FirstIsSmallest(rs: Ranges, x: nat)
    requires Apart(rs) && rs != [] && x in Members(rs)
    ensures rs[0].start <= x
  {
    MembersContains(rs, x);
    var k :| 0 <= k < |rs| && Within(rs[k], x);
    if k > 0 { assert Gap(rs, 0, k); }
  }
}
