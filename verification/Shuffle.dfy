/** The partial shuffle: choices correspond one-to-one with ordered selections, and samples are uniform. */
module Shuffle {
  import opened Sampling
  import opened BoundedDraw

  function Identity(n: nat): (p: seq<nat>)
    ensures |p| == n && forall i | 0 <= i < n :: p[i] == i
  {
    seq(n, i => i)
  }

  function Swap(p: seq<nat>, i: nat, j: nat): (q: seq<nat>)
    requires i < |p| && j < |p|
    ensures |q| == |p| && q[i] == p[j] && q[j] == p[i]
    ensures forall k | 0 <= k < |p| && k != i && k != j :: q[k] == p[k]
  {
    p[i := p[j]][j := p[i]]
  }

  /** Step `i` may choose any position from `i` on. */
  predicate Choices(n: nat, js: seq<nat>) {
    |js| <= n && forall i | 0 <= i < |js| :: i <= js[i] < n
  }

  /** The permutation after the steps. */
  function Shuffled(n: nat, js: seq<nat>): (p: seq<nat>)
    requires Choices(n, js)
    ensures |p| == n
    decreases |js|
  {
    if js == [] then Identity(n)
    else
      var k := |js| - 1;
      Swap(Shuffled(n, js[..k]), k, js[k])
  }

  function Selection(n: nat, js: seq<nat>): (s: seq<nat>)
    requires Choices(n, js)
    ensures |s| == |js|
  {
    Shuffled(n, js)[..|js|]
  }

  predicate Distinct(s: seq<nat>) { forall i, j | 0 <= i < j < |s| :: s[i] != s[j] }

  /** An ordered selection of distinct source positions. */
  predicate IsSelection(n: nat, s: seq<nat>) {
    |s| <= n && Distinct(s) && forall i | 0 <= i < |s| :: s[i] < n
  }

  lemma ShuffledGrows(n: nat, js: seq<nat>, j: nat)
    requires Choices(n, js) && |js| <= j < n
    ensures Choices(n, js + [j]) && Shuffled(n, js + [j]) == Swap(Shuffled(n, js), |js|, j)
  {
    assert (js + [j])[..|js|] == js;
  }

  lemma {:induction false} ShuffledIsPermutation(n: nat, js: seq<nat>)
    requires Choices(n, js)
    ensures IsSelection(n, Shuffled(n, js))
    decreases |js|
  {
    if js != [] {
      var k := |js| - 1;
      ShuffledIsPermutation(n, js[..k]);
    }
  }

  /** One more step leaves the selection made so far, and adds the chosen position. */
  lemma SelectionGrows(n: nat, js: seq<nat>)
    requires Choices(n, js) && js != []
    ensures Choices(n, js[..|js| - 1])
    ensures Selection(n, js) == Selection(n, js[..|js| - 1]) + [Shuffled(n, js[..|js| - 1])[js[|js| - 1]]]
  {
  }

  /** The prefix holds distinct source positions. */
  lemma SelectionIsDistinct(n: nat, js: seq<nat>)
    requires Choices(n, js)
    ensures IsSelection(n, Selection(n, js))
  {
    ShuffledIsPermutation(n, js);
  }

  /** Different choices give different selections. */
  lemma {:induction false} SelectionIsInjective(n: nat, a: seq<nat>, b: seq<nat>)
    requires Choices(n, a) && Choices(n, b) && Selection(n, a) == Selection(n, b)
    ensures a == b
    decreases |a|
  {
    if a != [] {
      var k := |a| - 1;
      assert |b| == |a|;
      assert a == a[..k] + [a[k]] && b == b[..k] + [b[k]];
      SelectionGrows(n, a);
      SelectionGrows(n, b);
      var (s, t) := (Selection(n, a), Selection(n, b));
      assert s[..k] == Selection(n, a[..k]) && t[..k] == Selection(n, b[..k]);
      SelectionIsInjective(n, a[..k], b[..k]);
      var p := Shuffled(n, a[..k]);
      ShuffledIsPermutation(n, a[..k]);
      assert s[k] == p[a[k]] && t[k] == p[b[k]];
    }
  }

  function IndexOf(p: seq<nat>, x: nat): (i: nat)
    requires x in p
    ensures i < |p| && p[i] == x
  {
    if p[0] == x then 0 else IndexOf(p[1..], x) + 1
  }

  /** A permutation of `0..n` holds every position. */
  lemma {:induction false} PermutationHolds(n: nat, p: seq<nat>, x: nat)
    requires IsSelection(n, p) && |p| == n && x < n
    ensures x in p
  {
    if x !in p {
      var s := set i | 0 <= i < n :: p[i];
      SelectionSize(p);
      var all := Run(0, n);
      assert s <= all - {x};
      SubsetSize(s, all - {x});
    }
  }

  lemma {:induction false} SelectionSize(p: seq<nat>)
    requires Distinct(p)
    ensures |(set i | 0 <= i < |p| :: p[i])| == |p|
  {
    if p != [] {
      var q := p[..|p| - 1];
      SelectionSize(q);
      assert (set i | 0 <= i < |p| :: p[i]) == (set i | 0 <= i < |q| :: q[i]) + {p[|p| - 1]};
    }
  }

  lemma {:induction false} SubsetSize(a: set<nat>, b: set<nat>)
    requires a <= b
    ensures |a| <= |b|
  {
    if a != {} {
      var x :| x in a;
      SubsetSize(a - {x}, b - {x});
    }
  }

  /** What is not yet selected sits after what is. */
  lemma LaterPosition(s: seq<nat>, p: seq<nat>, j: nat)
    requires Distinct(s) && |s| >= 1 && |p| >= |s| && j < |p|
    requires p[..|s| - 1] == s[..|s| - 1] && p[j] == s[|s| - 1]
    ensures j >= |s| - 1
  {
    var k := |s| - 1;
    assert forall i | 0 <= i < k :: p[i] == p[..k][i] == s[..k][i] == s[i];
  }

  /** The choices that produce a selection. */
  function ChoicesFor(n: nat, s: seq<nat>): (js: seq<nat>)
    requires IsSelection(n, s)
    ensures Choices(n, js) && Selection(n, js) == s
    decreases |s|
  {
    if s == [] then []
    else
      var k := |s| - 1;
      var rest := ChoicesFor(n, s[..k]);
      var p := Shuffled(n, rest);
      ShuffledIsPermutation(n, rest);
      PermutationHolds(n, p, s[k]);
      var j := IndexOf(p, s[k]);
      LaterPosition(s, p, j);
      var js := rest + [j];
      assert js[..k] == rest;
      SelectionGrows(n, js);
      js
  }

  // ----- counting the accepted draw sequences -----

  /** The words accepted step by step, the latest outermost. */
  datatype Trail = Fresh | Then(before: Trail, word: nat)

  function Length(t: Trail): nat {
    if t.Fresh? then 0 else Length(t.before) + 1
  }

  /** Every word is accepted for the range left at its step. */
  predicate AcceptedTrail(n: nat, t: Trail)
    requires n < WORD
  {
    t.Fresh? ||
    (AcceptedTrail(n, t.before) && Length(t.before) < n && t.word < WORD &&
     Accepts(WORD, t.word, n - Length(t.before)))
  }

  /** The choices a trail of accepted words makes. */
  function ChoicesOf(n: nat, t: Trail): (js: seq<nat>)
    requires n < WORD && AcceptedTrail(n, t)
    ensures Choices(n, js) && |js| == Length(t)
  {
    if t.Fresh? then []
    else
      var k := Length(t.before);
      ResultInRange(WORD, n - k, t.word);
      ChoicesOf(n, t.before) + [k + High(WORD, t.word, n - k)]
  }

  function Extend(ts: set<Trail>, words: set<nat>): set<Trail> {
    set t, x | t in ts && x in words :: Then(t, x)
  }

  /** Extending is one-to-one, so sizes multiply. */
  lemma {:induction false} ExtendSize(ts: set<Trail>, words: set<nat>)
    ensures |Extend(ts, words)| == |ts| * |words|
    decreases words
  {
    if words == {} {
      assert Extend(ts, words) == {};
    } else {
      var x :| x in words;
      var rest := words - {x};
      ExtendSize(ts, rest);
      ExtendByOne(ts, x);
      ExtendSplits(ts, words, x);
      OneMore(|ts|, |rest|);
    }
  }

  lemma OneMore(a: nat, b: nat)
    ensures a * (b + 1) == a * b + a
  {
  }

  lemma ExtendSplits(ts: set<Trail>, words: set<nat>, x: nat)
    requires x in words
    ensures |Extend(ts, words)| == |Extend(ts, words - {x})| + |Extend(ts, {x})|
    ensures |words| == |words - {x}| + 1
  {
    var (a, b) := (Extend(ts, words - {x}), Extend(ts, {x}));
    assert Extend(ts, words) == a + b;
    assert a !! b;
  }

  lemma {:induction false} ExtendByOne(ts: set<Trail>, x: nat)
    ensures |Extend(ts, {x})| == |ts|
    decreases ts
  {
    if ts == {} {
      assert Extend(ts, {x}) == {};
    } else {
      var t :| t in ts;
      var rest := ts - {t};
      ExtendByOne(rest, x);
      assert Extend(ts, {x}) == Extend(rest, {x}) + {Then(t, x)};
      assert |ts| == |rest| + 1;
    }
  }

  /** The trails that make the choices `js`. */
  ghost function Trails(n: nat, js: seq<nat>): set<Trail>
    requires n < WORD && Choices(n, js)
    decreases |js|
  {
    if js == [] then {Fresh}
    else
      var k := |js| - 1;
      Extend(Trails(n, js[..k]), Draws(WORD, n - k, js[k] - k))
  }

  lemma {:induction false} TrailsMakeChoices(n: nat, js: seq<nat>, t: Trail)
    requires n < WORD && Choices(n, js)
    ensures t in Trails(n, js) <==> AcceptedTrail(n, t) && ChoicesOf(n, t) == js
    decreases |js|
  {
    if js != [] && t.Then? {
      var k := |js| - 1;
      TrailsMakeChoices(n, js[..k], t.before);
      assert js == js[..k] + [js[k]];
      if AcceptedTrail(n, t) {
        var cs := ChoicesOf(n, t);
        assert cs[..|cs| - 1] == ChoicesOf(n, t.before);
      }
    }
  }

  function Hits(range: nat): nat
    requires range >= 1
  {
    WORD / range
  }

  /** The number of accepted trails behind one sample of `k` out of `n`. */
  function Ways(n: nat, k: nat): nat
    requires k <= n
  {
    if k == 0 then 1 else Ways(n, k - 1) * Hits(n - k + 1)
  }

  lemma {:induction false} TrailsSize(n: nat, js: seq<nat>)
    requires n < WORD && Choices(n, js)
    ensures |Trails(n, js)| == Ways(n, |js|)
    decreases |js|
  {
    if js != [] {
      var k := |js| - 1;
      TrailsSize(n, js[..k]);
      var words := Draws(WORD, n - k, js[k] - k);
      UniformDraws(WORD, n - k, js[k] - k);
      assert |words| == Hits(n - k);
      ExtendSize(Trails(n, js[..k]), words);
    }
  }

  /** Every ordered selection of `|s|` positions is produced by the same number of accepted trails. */
  lemma SamplesAreUniform(n: nat, s: seq<nat>)
    requires n < WORD && IsSelection(n, s)
    ensures forall t :: t in Trails(n, ChoicesFor(n, s)) <==>
                        AcceptedTrail(n, t) && Selection(n, ChoicesOf(n, t)) == s
    ensures |Trails(n, ChoicesFor(n, s))| == Ways(n, |s|)
  {
    var js := ChoicesFor(n, s);
    forall t
      ensures t in Trails(n, js) <==> AcceptedTrail(n, t) && Selection(n, ChoicesOf(n, t)) == s
    {
      TrailsMakeChoices(n, js, t);
      if AcceptedTrail(n, t) && Selection(n, ChoicesOf(n, t)) == s {
        SelectionIsInjective(n, ChoicesOf(n, t), js);
      }
    }
    TrailsSize(n, js);
  }

  // ----- the sampling loop -----

  /** `t` holds, step by step, the first accepted word of the stream from `begin` to `end`. */
  ghost predicate Consumed(d: Stream, n: nat, begin: nat, end: nat, t: Trail)
    requires n < WORD
    decreases t
  {
    if t.Fresh? then end == begin
    else
      Length(t.before) < n && end >= 1 && t.word == d(end - 1) &&
      exists mid: nat :: Consumed(d, n, begin, mid, t.before) &&
                         FirstAccepted(d, n - Length(t.before), mid, end - 1)
  }

  lemma TrailGrows(d: Stream, n: nat, begin: nat, mid: nat, end: nat, t: Trail)
    requires n < WORD && IsWordStream(d) && Length(t) < n && AcceptedTrail(n, t) && end >= 1
    requires Consumed(d, n, begin, mid, t) && FirstAccepted(d, n - Length(t), mid, end - 1)
    ensures var u := Then(t, d(end - 1));
            AcceptedTrail(n, u) && Consumed(d, n, begin, end, u) &&
            ChoicesOf(n, u) == ChoicesOf(n, t) + [Length(t) + High(WORD, d(end - 1), n - Length(t))]
  {
  }

  /** One draw: the chosen position extends the choices made so far. */
  method Choose(n: nat, i: nat, g: Generator, ghost begin: nat, ghost t: Trail)
    returns (j: nat, ghost u: Trail)
    requires i == Length(t) < n < WORD && AcceptedTrail(n, t) && Consumed(g.draws, n, begin, g.pos, t)
    requires IsWordStream(g.draws) && Fair(g.draws)
    modifies g
    ensures i <= j < n && Length(u) == i + 1
    ensures AcceptedTrail(n, u) && Consumed(g.draws, n, begin, g.pos, u)
    ensures ChoicesOf(n, u) == ChoicesOf(n, t) + [j]
  {
    assert Terminates(g.draws, n - i, g.pos);
    ghost var mid := g.pos;
    var b := g.Bounded(n - i);
    j := i + b;
    TrailGrows(g.draws, n, begin, mid, g.pos, t);
    u := Then(t, g.draws(g.pos - 1));
  }

  /** The exchange of one step, and the element it selects. */
  method Exchange(source: seq<nat>, permutation: array<nat>, i: nat, j: nat, output: array<nat>)
    requires i <= j < permutation.Length && i < output.Length && permutation != output
    requires permutation[j] < |source|
    modifies permutation, output
    ensures permutation[..] == Swap(old(permutation[..]), i, j)
    ensures output[..] == old(output[..])[i := source[permutation[i]]]
  {
    var tmp := permutation[i];
    permutation[i] := permutation[j];
    permutation[j] := tmp;
    output[i] := source[permutation[i]];
  }

  /** The words of `t` shuffled `p`, and its first positions are copied to `o`. */
  ghost predicate Sampled(d: Stream, source: seq<nat>, begin: nat, end: nat, t: Trail, p: seq<nat>, o: seq<nat>)
    requires |source| < WORD
  {
    Consumed(d, |source|, begin, end, t) && AcceptedTrail(|source|, t) &&
    p == Shuffled(|source|, ChoicesOf(|source|, t)) && Copied(source, p, o, Length(t))
  }

  predicate Copied(source: seq<nat>, p: seq<nat>, o: seq<nat>, i: nat) {
    i <= |p| && i <= |o| && forall m | 0 <= m < i :: p[m] < |source| && o[m] == source[p[m]]
  }

  lemma CopiedGrows(source: seq<nat>, p: seq<nat>, o: seq<nat>, i: nat, j: nat)
    requires Copied(source, p, o, i) && i <= j < |p| && i < |o| && p[j] < |source|
    ensures Copied(source, Swap(p, i, j), o[i := source[p[j]]], i + 1)
  {
  }

  method Step(source: seq<nat>, permutation: array<nat>, i: nat, g: Generator, output: array<nat>,
              ghost begin: nat, ghost t: Trail)
    returns (ghost u: Trail)
    requires i == Length(t) < |source| < WORD && i < output.Length && permutation != output
    requires Sampled(g.draws, source, begin, g.pos, t, permutation[..], output[..])
    requires IsWordStream(g.draws) && Fair(g.draws)
    modifies g, permutation, output
    ensures Length(u) == i + 1
    ensures Sampled(g.draws, source, begin, g.pos, u, permutation[..], output[..])
  {
    ghost var js := ChoicesOf(|source|, t);
    var j;
    j, u := Choose(|source|, i, g, begin, t);
    ghost var (p, o) := (permutation[..], output[..]);
    assert permutation[j] == p[j] < |source| by { ShuffledIsPermutation(|source|, js); }
    ShuffledGrows(|source|, js, j);
    CopiedGrows(source, p, o, i, j);
    Exchange(source, permutation, i, j, output);
    assert permutation[i] == permutation[..][i] == p[j];
    assert permutation[..] == Shuffled(|source|, ChoicesOf(|source|, u));
  }

  /**
   The sample is the source read at the selection that the accepted words make, and exactly the
   words up to the last accepted one are consumed.
   */
  method Oracle(source: seq<nat>, k: nat, g: Generator, output: array<nat>) returns (ghost t: Trail)
    requires k <= |source| < WORD && output.Length == k
    requires IsWordStream(g.draws) && Fair(g.draws)
    modifies g, output
    ensures Length(t) == k && Consumed(g.draws, |source|, old(g.pos), g.pos, t)
    ensures AcceptedTrail(|source|, t)
    ensures Copied(source, Selection(|source|, ChoicesOf(|source|, t)), output[..], k)
  {
    var permutation := new nat[|source|](i => i);
    assert permutation[..] == Identity(|source|);
    t := Fresh;
    var i := 0;
    while i < k
      invariant 0 <= i == Length(t) <= k
      invariant Sampled(g.draws, source, old(g.pos), g.pos, t, permutation[..], output[..])
    {
      t := Step(source, permutation, i, g, output, old(g.pos), t);
      i := i + 1;
    }
  }
}
