/**
 Bounded sampling by multiply-high with rejection, over an arbitrary word size. The generator's
 word holds the values below `w`; the source has `w == 2^64`.
 */
module Sampling {

  const WORD: nat := 0x1_0000_0000_0000_0000

  /** The threshold `-range % range` in arithmetic modulo the word size. */
  function Threshold(w: nat, range: nat): nat
    requires 1 <= range <= w
  {
    (w - range) % range
  }

  function High(w: nat, x: nat, range: nat): nat
    requires w > 0
  {
    x * range / w
  }

  function Low(w: nat, x: nat, range: nat): nat
    requires w > 0
  {
    x * range % w
  }

  predicate Accepts(w: nat, x: nat, range: nat)
    requires 1 <= range <= w
  {
    Low(w, x, range) >= Threshold(w, range)
  }

  // ----- counting -----

  lemma ThresholdIsRemainder(w: nat, range: nat)
    requires 1 <= range <= w
    ensures Threshold(w, range) == w % range < range
  {
    assert w % range == (w - range) % range by {
      var q := w / range;
      assert w == q * range + w % range;
      assert w - range == (q - 1) * range + w % range;
      DivModUnique(w - range, range, q - 1, w % range);
    }
  }

  lemma SmallMultiple(k: int, d: nat)
    requires 0 - d < k * d < d
    ensures k == 0
  {
    if k >= 1 { MulMono(1, k, d); }
    if k <= -1 { MulMono(1, -k, d); }
  }

  lemma MulMono(a: int, b: int, c: nat)
    requires a <= b
    ensures a * c <= b * c
  {
  }

  lemma DivModUnique(a: int, d: nat, q: int, r: nat)
    requires d > 0 && a == q * d + r && r < d
    ensures a / d == q && a % d == r
  {
    var k := a / d - q;
    assert k * d == (a / d) * d - q * d;
    assert k * d == r - a % d;
    SmallMultiple(k, d);
  }

  /** The draws that are accepted and mapped to `r` are those whose product lies in one window. */
  lemma WindowOf(w: nat, range: nat, r: nat, x: nat)
    requires 1 <= range <= w && r < range
    ensures Accepts(w, x, range) && High(w, x, range) == r <==>
            r * w + Threshold(w, range) <= x * range < (r + 1) * w
  {
    var p := x * range;
    assert p == (p / w) * w + p % w;
    assert (r + 1) * w == r * w + w;
    if r * w + Threshold(w, range) <= p < (r + 1) * w {
      DivModUnique(p, w, r, p - r * w);
    }
  }

  /** The smallest draw in the window. */
  function First(w: nat, range: nat, r: nat): nat
    requires 1 <= range <= w
  {
    (r * w + Threshold(w, range) + range - 1) / range
  }

  /** A window is a run of `w / range` consecutive draws, all of them words. */
  lemma WindowIsRun(w: nat, range: nat, r: nat, x: nat)
    requires 1 <= range <= w && r < range
    ensures r * w + Threshold(w, range) <= x * range < (r + 1) * w <==>
            First(w, range, r) <= x < First(w, range, r) + w / range
    ensures First(w, range, r) + w / range <= w
  {
    ThresholdIsRemainder(w, range);
    var (q, t, a) := (w / range, w % range, First(w, range, r));
    var lo := r * w + t;
    DivMod(w, range);
    // lo <= a * range < lo + range, and the window ends at lo + q * range.
    RoundedUp(lo, range);
    Distribute(r, 1, w);
    Distribute(a, q, range);
    Steps(range, lo, a, x);
    Steps(range, lo + q * range, a + q, x);
    LastRunFits(w, range, r, a, q, t);
  }

  lemma DivMod(a: nat, d: nat)
    requires d > 0
    ensures a == (a / d) * d + a % d
  {
  }

  lemma Distribute(a: int, b: int, c: int)
    ensures (a + b) * c == a * c + b * c
  {
  }

  /** Dividing after adding `range - 1` rounds up. */
  lemma RoundedUp(lo: nat, range: nat)
    requires range >= 1
    ensures var a := (lo + range - 1) / range; lo <= a * range < lo + range
  {
    var n := lo + range - 1;
    assert n == (n / range) * range + n % range;
  }

  /** `a` is the least multiplier that reaches `lo`. */
  lemma Steps(range: nat, lo: nat, a: nat, x: nat)
    requires range >= 1 && lo <= a * range < lo + range
    ensures lo <= x * range <==> a <= x
  {
    if x < a {
      MulMono(x, a - 1, range);
      assert (a - 1) * range == a * range - range;
    } else {
      MulMono(a, x, range);
    }
  }

  lemma LastRunFits(w: nat, range: nat, r: nat, a: nat, q: nat, t: nat)
    requires 1 <= range <= w && r < range && w == q * range + t && a * range < r * w + t + range
    ensures a + q <= w
  {
    assert (a + q) * range == a * range + q * range;
    assert (r + 1) * w == r * w + w;
    MulMono(r + 1, range, w);
    assert range * w + range == (w + 1) * range;
    assert (a + q) * range < (w + 1) * range;
    if a + q >= w + 1 { MulMono(w + 1, a + q, range); }
  }

  /** The set of words accepted and mapped to `r`. */
  ghost function Draws(w: nat, range: nat, r: nat): set<nat>
    requires 1 <= range <= w
  {
    set x | 0 <= x < w && Accepts(w, x, range) && High(w, x, range) == r
  }

  function Run(a: nat, n: nat): (s: set<nat>)
    ensures |s| == n && forall x :: x in s <==> a <= x < a + n
  {
    if n == 0 then {} else Run(a, n - 1) + {a + n - 1}
  }

  /** Every result is hit by exactly `w / range` of the `w` words. */
  lemma UniformDraws(w: nat, range: nat, r: nat)
    requires 1 <= range <= w && r < range
    ensures |Draws(w, range, r)| == w / range
  {
    var a := First(w, range, r);
    forall x: nat
      ensures x in Draws(w, range, r) <==> x in Run(a, w / range)
    {
      WindowOf(w, range, r, x);
      WindowIsRun(w, range, r, x);
    }
    assert Draws(w, range, r) == Run(a, w / range);
  }

  /** An accepted word always yields a result below the range. */
  lemma ResultInRange(w: nat, range: nat, x: nat)
    requires w > 0 && range >= 1 && x < w
    ensures High(w, x, range) < range
  {
    var p := x * range;
    assert p == (p / w) * w + p % w;
    assert p < range * w by {
      MulMono(x + 1, w, range);
      assert (x + 1) * range == p + range;
    }
    BelowFactor(p / w, range, w, p % w);
  }

  lemma BelowFactor(q: nat, range: nat, w: nat, rest: nat)
    requires q * w + rest < range * w
    ensures q < range
  {
    MulMonoStrict(q, range, w);
  }

  lemma MulMonoStrict(a: nat, b: nat, c: nat)
    ensures a * c < b * c ==> a < b
  {
    if b <= a { MulMono(b, a, c); }
  }

  /** For 64-bit words and every range a caller can pass. */
  lemma UniformDraws64(range: nat, r: nat)
    requires 1 <= range < WORD && r < range
    ensures |Draws(WORD, range, r)| == WORD / range
  {
    UniformDraws(WORD, range, r);
  }
}
