/** Byte-wise order on texts, strictly sorted lists, and hexadecimal spelling. */
module Order {
  import opened Common

  predicate Less(a: Bytes, b: Bytes) {
    b != "" && (a == "" || a[0] < b[0] || (a[0] == b[0] && Less(a[1..], b[1..])))
  }

  /** The first difference decides: a smaller byte, or the end of the first text. */
  predicate DecidedAt(a: Bytes, b: Bytes, k: nat) {
    && k <= |a| && k < |b| && a[..k] == b[..k] && (k == |a| || a[k] < b[k])
  }

  lemma {:induction false} LessIff(a: Bytes, b: Bytes)
    ensures Less(a, b) <==> exists k: nat :: DecidedAt(a, b, k)
  {
    if a != "" && b != "" && a[0] == b[0] {
      LessIff(a[1..], b[1..]);
      if Less(a, b) {
        var k: nat :| DecidedAt(a[1..], b[1..], k);
        assert a[..k + 1] == [a[0]] + a[1..][..k] && b[..k + 1] == [b[0]] + b[1..][..k];
        assert DecidedAt(a, b, k + 1);
      }
      if k: nat :| DecidedAt(a, b, k) {
        assert a[1..][..k - 1] == a[..k][1..] && b[1..][..k - 1] == b[..k][1..];
        assert DecidedAt(a[1..], b[1..], k - 1);
      }
    } else if Less(a, b) {
      assert DecidedAt(a, b, 0);
    }
  }

  lemma {:induction false} LessIsTransitive(a: Bytes, b: Bytes, c: Bytes)
    requires Less(a, b) && Less(b, c)
    ensures Less(a, c)
  {
    if a != "" && a[0] == b[0] && b[0] == c[0] { LessIsTransitive(a[1..], b[1..], c[1..]); }
  }

  lemma {:induction false} LessIsIrreflexive(a: Bytes)
    ensures !Less(a, a)
  {
    if a != "" { LessIsIrreflexive(a[1..]); }
  }

  lemma {:induction false} LessIsTotal(a: Bytes, b: Bytes)
    ensures a == b || Less(a, b) || Less(b, a)
  {
    if a != "" && b != "" && a[0] == b[0] {
      LessIsTotal(a[1..], b[1..]);
      assert a == [a[0]] + a[1..] && b == [b[0]] + b[1..];
    }
  }

  // ----- strictly sorted lists -----

  predicate StrictlySorted(s: seq<Bytes>) { forall i, j | 0 <= i < j < |s| :: Less(s[i], s[j]) }

  function Elements(s: seq<Bytes>): set<Bytes> { set x | x in s }

  function Insert(x: Bytes, t: seq<Bytes>): seq<Bytes> {
    if t == [] || Less(x, t[0]) then [x] + t else [t[0]] + Insert(x, t[1..])
  }

  lemma {:induction false} InsertKeepsSorted(x: Bytes, t: seq<Bytes>)
    requires StrictlySorted(t) && x !in t
    ensures StrictlySorted(Insert(x, t)) && Elements(Insert(x, t)) == Elements(t) + {x}
    decreases |t|
  {
    if t == [] {
    } else if Less(x, t[0]) {
      forall i | 0 <= i < |t|
        ensures Less(x, t[i])
      {
        if i > 0 { LessIsTransitive(x, t[0], t[i]); }
      }
    } else {
      LessIsTotal(x, t[0]);
      InsertKeepsSorted(x, t[1..]);
      var rest := Insert(x, t[1..]);
      forall y | y in rest
        ensures Less(t[0], y)
      {
        assert y in Elements(rest);
      }
      assert Elements([t[0]] + rest) == {t[0]} + Elements(rest);
      assert Elements(t) == {t[0]} + Elements(t[1..]);
    }
  }

  /** The elements of a set in order. */
  method Sorted(s: set<Bytes>) returns (t: seq<Bytes>)
    ensures StrictlySorted(t) && Elements(t) == s
  {
    t := [];
    var rest := s;
    while rest != {}
      invariant rest <= s && StrictlySorted(t) && Elements(t) == s - rest
      decreases rest
    {
      var x :| x in rest;
      assert x !in t by { assert x !in Elements(t); }
      InsertKeepsSorted(x, t);
      t := Insert(x, t);
      rest := rest - {x};
    }
  }

  /** A set has one strictly sorted list. */
  lemma {:induction false} SortedListIsUnique(a: seq<Bytes>, b: seq<Bytes>)
    requires StrictlySorted(a) && StrictlySorted(b) && Elements(a) == Elements(b)
    ensures a == b
    decreases |a|
  {
    assert a != [] ==> a[0] in Elements(a);
    assert b != [] ==> b[0] in Elements(b);
    if a != [] && b != [] {
      SameHead(a, b);
      TailElements(a);
      TailElements(b);
      SortedListIsUnique(a[1..], b[1..]);
      assert a == [a[0]] + a[1..] && b == [b[0]] + b[1..];
    }
  }

  lemma SameHead(a: seq<Bytes>, b: seq<Bytes>)
    requires StrictlySorted(a) && StrictlySorted(b) && Elements(a) == Elements(b) && a != [] && b != []
    ensures a[0] == b[0]
  {
    assert a[0] in Elements(a) && b[0] in Elements(b);
    var i :| 0 <= i < |b| && b[i] == a[0];
    var j :| 0 <= j < |a| && a[j] == b[0];
    if i > 0 && j > 0 {
      LessIsTransitive(a[0], b[0], a[0]);
      LessIsIrreflexive(a[0]);
    }
  }

  lemma TailElements(a: seq<Bytes>)
    requires StrictlySorted(a) && a != []
    ensures Elements(a[1..]) == Elements(a) - {a[0]} && StrictlySorted(a[1..])
  {
    LessIsIrreflexive(a[0]);
    assert forall x | x in Elements(a[1..]) :: Less(a[0], x);
  }

  // ----- hexadecimal -----

  predicate IsByte(c: char) { c < '\U{100}' }

  predicate IsBytes(s: Bytes) { forall i | 0 <= i < |s| :: IsByte(s[i]) }

  function HexDigit(n: nat): (c: char)
    requires n < 16
    ensures IsHexDigit(c)
  {
    if n < 10 then ('0' as int + n) as char else ('a' as int + n - 10) as char
  }

  function HexByte(c: char): (s: Bytes)
    requires IsByte(c)
    ensures |s| == 2
  {
    [HexDigit(c as int / 16), HexDigit(c as int % 16)]
  }

  function Hex(s: Bytes): (h: Bytes)
    requires IsBytes(s)
    ensures |h| == 2 * |s| && forall i | 0 <= i < |h| :: IsHexDigit(h[i])
  {
    if s == "" then "" else HexByte(s[0]) + Hex(s[1..])
  }

  lemma DigitOrder(m: nat, n: nat)
    requires m < 16 && n < 16
    ensures HexDigit(m) < HexDigit(n) <==> m < n
    ensures HexDigit(m) == HexDigit(n) <==> m == n
  {
  }

  lemma LessByPair(a: char, b: char, x: Bytes, y: Bytes)
    requires IsByte(a) && IsByte(b)
    ensures Less(HexByte(a) + x, HexByte(b) + y) <==> a < b || (a == b && Less(x, y))
    ensures HexByte(a) == HexByte(b) <==> a == b
  {
    var (p, q) := (HexByte(a) + x, HexByte(b) + y);
    DigitOrder(a as int / 16, b as int / 16);
    DigitOrder(a as int % 16, b as int % 16);
    assert p[1..] == [HexByte(a)[1]] + x && q[1..] == [HexByte(b)[1]] + y;
    assert p[1..][1..] == x && q[1..][1..] == y;
  }

  /** Hexadecimal spelling preserves the order of byte strings, and their identity. */
  lemma {:induction false} HexPreservesOrder(a: Bytes, b: Bytes)
    requires IsBytes(a) && IsBytes(b)
    ensures Less(Hex(a), Hex(b)) <==> Less(a, b)
    ensures Hex(a) == Hex(b) <==> a == b
  {
    if a != "" && b != "" {
      LessByPair(a[0], b[0], Hex(a[1..]), Hex(b[1..]));
      HexPreservesOrder(a[1..], b[1..]);
      assert Hex(a)[..2] == HexByte(a[0]) && Hex(b)[..2] == HexByte(b[0]);
      assert Hex(a)[2..] == Hex(a[1..]) && Hex(b)[2..] == Hex(b[1..]);
      assert a == [a[0]] + a[1..] && b == [b[0]] + b[1..];
    }
  }

  function Value(c: char): (n: nat)
    requires IsHexDigit(c)
    ensures n < 16 && HexDigit(n) == c
  {
    if c <= '9' then c as int - '0' as int else c as int - 'a' as int + 10
  }

  predicate IsHexText(h: Bytes) {
    |h| % 2 == 0 && forall i | 0 <= i < |h| :: IsHexDigit(h[i])
  }

  function ByteOf(high: char, low: char): (c: char)
    requires IsHexDigit(high) && IsHexDigit(low)
    ensures IsByte(c) && HexByte(c) == [high, low]
  {
    var n := Value(high) * 16 + Value(low);
    assert n / 16 == Value(high) && n % 16 == Value(low);
    n as char
  }

  function Unhex(h: Bytes): (s: Bytes)
    requires IsHexText(h)
    ensures IsBytes(s) && 2 * |s| == |h|
  {
    if h == "" then "" else [ByteOf(h[0], h[1])] + Unhex(h[2..])
  }

  lemma {:induction false} HexUnhex(h: Bytes)
    requires IsHexText(h)
    ensures Hex(Unhex(h)) == h
  {
    if h != "" {
      HexUnhex(h[2..]);
      assert Unhex(h)[1..] == Unhex(h[2..]);
      assert h == [h[0], h[1]] + h[2..];
    }
  }

  lemma UnhexHex(s: Bytes)
    requires IsBytes(s)
    ensures Unhex(Hex(s)) == s
  {
    HexUnhex(Hex(s));
    HexPreservesOrder(Unhex(Hex(s)), s);
  }
}
