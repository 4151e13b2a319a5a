/** The base64 alphabet of RFC 4648, section 4, with padding: decoding undoes encoding. */
module Base64 {
  import opened Common
  import opened Order

  /** An encoder and a decoder of byte strings. */
  datatype Codec = Codec(encode: Bytes -> Bytes, decode: Bytes -> Option<Bytes>)

  /** Decoding undoes encoding, and encodings are single non-empty lines. */
  ghost predicate Sound(b: Codec) {
    forall x | IsBytes(x) ::
      b.decode(b.encode(x)) == Some(x) && '\n' !in b.encode(x) && (x != "" ==> b.encode(x) != "")
  }

  function Digit(n: nat): (c: char)
    requires n < 64
  {
    if n < 26 then ('A' as int + n) as char
    else if n < 52 then ('a' as int + n - 26) as char
    else if n < 62 then ('0' as int + n - 52) as char
    else if n == 62 then '+' else '/'
  }

  /** The value of a digit, or 64 for any other character. */
  function Value64(c: char): (n: nat)
    ensures n <= 64
  {
    if 'A' <= c <= 'Z' then c as int - 'A' as int
    else if 'a' <= c <= 'z' then c as int - 'a' as int + 26
    else if '0' <= c <= '9' then c as int - '0' as int + 52
    else if c == '+' then 62 else if c == '/' then 63 else 64
  }

  lemma DigitBack(n: nat)
    requires n < 64
    ensures Value64(Digit(n)) == n && Digit(n) != '=' && Digit(n) != '\n'
  {
  }

  function Octet(c: char): (n: nat)
    ensures n < 256 && (IsByte(c) ==> n as char == c)
  {
    c as int % 256
  }

  /** The four digits of three octets. */
  function Group(x: Bytes): (t: Bytes)
    requires |x| == 3
    ensures |t| == 4
  {
    var (a, b, c) := (Octet(x[0]), Octet(x[1]), Octet(x[2]));
    [Digit(a / 4), Digit(a % 4 * 16 + b / 16), Digit(b % 16 * 4 + c / 64), Digit(c % 64)]
  }

  function Encode(x: Bytes): Bytes {
    if x == "" then ""
    else if |x| == 1 then Group(x + "\0\0")[..2] + "=="
    else if |x| == 2 then Group(x + "\0")[..3] + "="
    else Group(x[..3]) + Encode(x[3..])
  }

  /** The three octets of four digit values; padding counts as zero. */
  function Octets(p: nat, q: nat, r: nat, s: nat): (x: Bytes)
    requires p < 64 && q < 64 && r < 64 && s < 64
    ensures |x| == 3 && IsBytes(x)
  {
    [(p * 4 + q / 16) as char, (q % 16 * 16 + r / 4) as char, (r % 4 * 64 + s) as char]
  }

  predicate AreDigits(t: Bytes) { forall i | 0 <= i < |t| :: Value64(t[i]) < 64 }

  function Decode(t: Bytes): Option<Bytes> {
    if t == "" then Some("")
    else if |t| < 4 || !AreDigits(t[..2]) then None
    else
      var (p, q) := (Value64(t[0]), Value64(t[1]));
      assert t[..2][0] == t[0] && t[..2][1] == t[1];
      if t[2..] == "==" then Some(Octets(p, q, 0, 0)[..1])
      else if Value64(t[2]) == 64 then None
      else if t[3..] == "=" then Some(Octets(p, q, Value64(t[2]), 0)[..2])
      else if Value64(t[3]) == 64 then None
      else
        match Decode(t[4..])
        case None => None
        case Some(rest) => Some(Octets(p, q, Value64(t[2]), Value64(t[3])) + rest)
  }

  lemma Regroup(a: nat, b: nat, c: nat)
    requires a < 256 && b < 256 && c < 256
    ensures
      var (q, r) := (a % 4 * 16 + b / 16, b % 16 * 4 + c / 64);
      q < 64 && r < 64 && a / 4 * 4 + q / 16 == a && q % 16 * 16 + r / 4 == b && r % 4 * 64 + c % 64 == c
  {
    var (q, r) := (a % 4 * 16 + b / 16, b % 16 * 4 + c / 64);
    assert q / 16 == a % 4 && q % 16 == b / 16;
    assert r / 4 == b % 16 && r % 4 == c / 64;
  }

  lemma GroupIsDigits(x: Bytes)
    requires |x| == 3
    ensures AreDigits(Group(x)) && '=' !in Group(x) && '\n' !in Group(x)
  {
    var (a, b, c) := (Octet(x[0]), Octet(x[1]), Octet(x[2]));
    Regroup(a, b, c);
    DigitBack(a / 4);
    DigitBack(a % 4 * 16 + b / 16);
    DigitBack(b % 16 * 4 + c / 64);
    DigitBack(c % 64);
  }

  lemma GroupBack(x: Bytes)
    requires |x| == 3 && IsBytes(x)
    ensures AreDigits(Group(x))
    ensures var t := Group(x); Octets(Value64(t[0]), Value64(t[1]), Value64(t[2]), Value64(t[3])) == x
  {
    GroupIsDigits(x);
    var (a, b, c) := (Octet(x[0]), Octet(x[1]), Octet(x[2]));
    Regroup(a, b, c);
    DigitBack(a / 4);
    DigitBack(a % 4 * 16 + b / 16);
    DigitBack(b % 16 * 4 + c / 64);
    DigitBack(c % 64);
  }

  /** Four digits and what follows are decoded apart. */
  lemma DecodeGroup(g: Bytes, t: Bytes, x: Bytes)
    requires |g| == 4 && AreDigits(g) && Decode(t) == Some(x)
    ensures Decode(g + t) == Some(Octets(Value64(g[0]), Value64(g[1]), Value64(g[2]), Value64(g[3])) + x)
  {
    var u := g + t;
    assert u[0] == g[0] && u[1] == g[1] && u[2] == g[2] && u[3] == g[3];
    assert u[4..] == t && u[..2] == g[..2];
    assert u[2..][0] == u[2] && u[3..][0] == u[3];
  }

  lemma PaddedByTwo(y: Bytes)
    requires |y| == 3 && y[1] == '\0' && y[2] == '\0'
    ensures Value64(Group(y)[2]) == 0 && Value64(Group(y)[3]) == 0
  {
  }

  lemma DecodeTwoDigits(g: Bytes)
    requires |g| == 4 && AreDigits(g)
    ensures Decode(g[..2] + "==") == Some(Octets(Value64(g[0]), Value64(g[1]), 0, 0)[..1])
  {
    var t := g[..2] + "==";
    assert t[..2] == g[..2] && t[2..] == "==" && t[0] == g[0] && t[1] == g[1];
  }

  lemma OneBack(x: Bytes)
    requires IsBytes(x) && |x| == 1
    ensures Decode(Encode(x)) == Some(x) && '\n' !in Encode(x)
  {
    var y := x + "\0\0";
    var g := Group(y);
    assert y[..1] == x;
    PaddedByTwo(y);
    GroupIsDigits(y);
    GroupBack(y);
    DecodeTwoDigits(g);
  }

  lemma TwoBack(x: Bytes)
    requires IsBytes(x) && |x| == 2
    ensures Decode(Encode(x)) == Some(x) && '\n' !in Encode(x)
  {
    var y := x + "\0";
    var g := Group(y);
    GroupIsDigits(y);
    GroupBack(y);
    assert Value64(g[3]) == 0;
    assert Encode(x)[..2] == g[..2] && Encode(x)[3..] == "=" && Encode(x)[2] == g[2];
    assert y[..2] == x;
  }

  lemma ThreeBack(x: Bytes)
    requires IsBytes(x) && |x| > 2 && Decode(Encode(x[3..])) == Some(x[3..]) && '\n' !in Encode(x[3..])
    ensures Decode(Encode(x)) == Some(x) && '\n' !in Encode(x)
  {
    GroupIsDigits(x[..3]);
    GroupBack(x[..3]);
    DecodeGroup(Group(x[..3]), Encode(x[3..]), x[3..]);
    assert x == x[..3] + x[3..];
  }

  lemma {:induction false} DecodesBack(x: Bytes)
    requires IsBytes(x)
    ensures Decode(Encode(x)) == Some(x) && '\n' !in Encode(x)
  {
    if |x| == 1 {
      OneBack(x);
    } else if |x| == 2 {
      TwoBack(x);
    } else if |x| > 2 {
      DecodesBack(x[3..]);
      ThreeBack(x);
    }
  }

  const STANDARD := Codec(Encode, Decode)

  lemma StandardIsSound()
    ensures Sound(STANDARD)
  {
    forall x | IsBytes(x)
      ensures Decode(Encode(x)) == Some(x) && '\n' !in Encode(x)
    {
      DecodesBack(x);
    }
  }
}
