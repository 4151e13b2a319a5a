/** The bounded draw on any stream of words: the guarded fast path against the plain rejection loop. */
module BoundedDraw {
  import opened Sampling

  /** The `k`-th word of the generator's stream. */
  type Stream = nat -> nat

  ghost predicate IsWordStream(d: Stream) { forall k: nat :: d(k) < WORD }

  /** The draw at `k` is the first one from `from` on that is not below the threshold. */
  ghost predicate FirstAccepted(d: Stream, range: nat, from: nat, k: nat)
    requires 1 <= range < WORD
  {
    from <= k && Accepts(WORD, d(k), range) && forall i | from <= i < k :: !Accepts(WORD, d(i), range)
  }

  /** The rejection loop ends when started at `from`. */
  ghost predicate Terminates(d: Stream, range: nat, from: nat)
    requires 1 <= range < WORD
  {
    exists k: nat :: from <= k && Accepts(WORD, d(k), range)
  }

  /** The rejection loop ends wherever it is started. */
  ghost predicate Fair(d: Stream) {
    forall range, from: nat | 1 <= range < WORD :: Terminates(d, range, from)
  }

  predicate IsProduct(x: nat, range: nat, product: nat) { product == x * range }

  function Times(x: nat, range: nat): (product: nat)
    ensures IsProduct(x, range, product)
  {
    x * range
  }

  /** The loop's test is that the draw is rejected. */
  lemma RejectsIff(x: nat, range: nat, product: nat)
    requires 1 <= range < WORD && IsProduct(x, range, product)
    ensures product % WORD < (WORD - range) % range <==> !Accepts(WORD, x, range)
  {
  }

  class Generator {
    const draws: Stream
    var pos: nat

    constructor (draws: Stream)
      ensures this.draws == draws && pos == 0
    {
      this.draws, pos := draws, 0;
    }

    method Next() returns (x: nat)
      modifies this
      ensures x == draws(old(pos)) && pos == old(pos) + 1
    {
      x := draws(pos);
      pos := pos + 1;
    }

    /** The loop: draws again while the draw just made is rejected. */
    method DrawAccepted(range: nat, first: nat) returns (product: nat)
      requires 1 <= range < WORD && pos > 0 && IsProduct(draws(pos - 1), range, first)
      requires Terminates(draws, range, pos - 1)
      modifies this
      ensures pos >= old(pos) && FirstAccepted(draws, range, old(pos) - 1, pos - 1)
      ensures IsProduct(draws(pos - 1), range, product)
    {
      product := first;
      var threshold := (WORD - range) % range;
      ghost var k: nat :| old(pos) - 1 <= k && Accepts(WORD, draws(k), range);
      RejectsIff(draws(pos - 1), range, product);
      while product % WORD < threshold
        invariant old(pos) <= pos <= k + 1
        invariant IsProduct(draws(pos - 1), range, product)
        invariant product % WORD < threshold <==> !Accepts(WORD, draws(pos - 1), range)
        invariant forall i | old(pos) - 1 <= i < pos - 1 :: !Accepts(WORD, draws(i), range)
        decreases k - pos
      {
        var x := Next();
        product := Times(x, range);
        RejectsIff(x, range, product);
      }
    }

    /**
     The result is the high half of the first accepted draw, and exactly the draws up to it are
     consumed: the guard that skips the threshold changes nothing. A zero range draws once and
     returns zero.
     */
    method Bounded(range: nat) returns (r: nat)
      requires range < WORD && IsWordStream(draws)
      requires range >= 1 ==> Terminates(draws, range, pos)
      modifies this
      ensures pos > old(pos)
      ensures range == 0 ==> r == 0 && pos == old(pos) + 1
      ensures range >= 1 ==>
                FirstAccepted(draws, range, old(pos), pos - 1) && r == High(WORD, draws(pos - 1), range) < range
    {
      var x := Next();
      var product := Times(x, range);
      if range == 0 { return 0; }
      ThresholdIsRemainder(WORD, range);
      if product % WORD < range { product := DrawAccepted(range, product); }
      ResultInRange(WORD, range, draws(pos - 1));
      r := product / WORD;
    }
  }
}
