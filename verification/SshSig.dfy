/** SSHSIG framing, as in section 5 of RFC 4251: decoders as exact inverses of the encoders. */
module SshSig {
  import opened Common
  import opened Order
  import opened Text
  import opened Base64

  // ----- length-prefixed strings -----

  const LIMIT: nat := 0x1_0000_0000

  function Byte(n: nat): (c: char)
    requires n < 256
    ensures IsByte(c)
  {
    n as char
  }

  /** Four bytes, most significant first. */
  function Pack(n: nat): (s: Bytes)
    requires n < LIMIT
    ensures |s| == 4 && IsBytes(s)
  {
    [Byte(n / 0x100_0000), Byte(n / 0x1_0000 % 0x100), Byte(n / 0x100 % 0x100), Byte(n % 0x100)]
  }

  function Unpack(s: Bytes): (n: nat)
    requires |s| == 4 && IsBytes(s)
    ensures n < LIMIT
  {
    s[0] as int * 0x100_0000 + s[1] as int * 0x1_0000 + s[2] as int * 0x100 + s[3] as int
  }

  lemma UnpackPack(n: nat)
    requires n < LIMIT
    ensures Unpack(Pack(n)) == n
  {
    var (a, b, c) := (n / 0x100, n / 0x1_0000, n / 0x100_0000);
    assert n == a * 0x100 + n % 0x100;
    assert a == b * 0x100 + a % 0x100;
    assert b == c * 0x100 + b % 0x100;
  }

  lemma Digits(x: nat, y: nat, z: nat, w: nat)
    requires x < 256 && y < 256 && z < 256 && w < 256
    ensures var n := x * 0x100_0000 + y * 0x1_0000 + z * 0x100 + w;
            n / 0x100_0000 == x && n / 0x1_0000 % 0x100 == y && n / 0x100 % 0x100 == z && n % 0x100 == w
  {
    var n := x * 0x100_0000 + y * 0x1_0000 + z * 0x100 + w;
    assert n / 0x100 == x * 0x1_0000 + y * 0x100 + z;
    assert n / 0x1_0000 == x * 0x100 + y;
  }

  lemma PackUnpack(s: Bytes)
    requires |s| == 4 && IsBytes(s)
    ensures Pack(Unpack(s)) == s
  {
    Digits(s[0] as int, s[1] as int, s[2] as int, s[3] as int);
  }

  function Frame(s: Bytes): Bytes
    requires |s| < LIMIT
  {
    Pack(|s|) + s
  }

  datatype Taken = Bad | Took(value: Bytes, rest: Bytes)

  function Take(raw: Bytes): (t: Taken)
    requires IsBytes(raw)
    ensures t.Took? ==> IsBytes(t.value) && IsBytes(t.rest) && |t.value| < LIMIT
  {
    if |raw| < 4 then Bad
    else
      var n := Unpack(raw[..4]);
      if 4 + n > |raw| then Bad else Took(raw[4..4 + n], raw[4 + n..])
  }

  lemma TakeIffFramed(raw: Bytes, s: Bytes, rest: Bytes)
    requires IsBytes(raw)
    ensures Take(raw) == Took(s, rest) <==> |s| < LIMIT && raw == Frame(s) + rest
  {
    if |s| < LIMIT && raw == Frame(s) + rest {
      assert raw[..4] == Pack(|s|);
      UnpackPack(|s|);
      assert raw[4..4 + |s|] == s && raw[4 + |s|..] == rest;
    }
    if Take(raw) == Took(s, rest) {
      PackUnpack(raw[..4]);
      assert raw == raw[..4] + (raw[4..4 + |s|] + raw[4 + |s|..]);
    }
  }

  // ----- the signature record -----

  const MAGIC: Bytes := "SSHSIG"
  const VERSION: nat := 1
  const HASH: Bytes := "sha512"
  const KEY: Bytes := "ssh-ed25519"

  const REPORT_NAMESPACE: Bytes := "align-json-escape-benchmark-evidence-v1"
  const MERGE_NAMESPACE: Bytes := "align-json-escape-benchmark-merge-verification-v1"

  predicate IsNamespace(s: Bytes) { s == REPORT_NAMESPACE || s == MERGE_NAMESPACE }

  datatype Signature = Signature(publicKey: Bytes, namespace: Bytes, signature: Bytes)

  /** Two frames and nothing after them: an algorithm name and a value of the given length. */
  function Value(blob: Bytes, size: nat): Option<Bytes>
    requires IsBytes(blob)
  {
    match Take(blob)
    case Bad => None
    case Took(algorithm, more) =>
      match Take(more)
      case Bad => None
      case Took(value, rest) => if rest != "" || algorithm != KEY || |value| != size then None else Some(value)
  }

  function Blob(value: Bytes): Bytes
    requires |value| < LIMIT
  {
    Frame(KEY) + (Frame(value) + "")
  }

  lemma ValueIffBlob(blob: Bytes, size: nat, v: Bytes)
    requires IsBytes(blob) && size < LIMIT
    ensures Value(blob, size) == Some(v) <==> |v| == size && blob == Blob(v)
  {
    if |v| == size && blob == Blob(v) {
      TakeIffFramed(blob, KEY, Frame(v) + "");
      TakeIffFramed(Frame(v) + "", v, "");
    }
    if Value(blob, size) == Some(v) {
      var more := Take(blob).rest;
      TakeIffFramed(blob, KEY, more);
      TakeIffFramed(more, v, "");
    }
  }

  predicate Valid(s: Signature) {
    IsBytes(s.publicKey) && |s.publicKey| < LIMIT && Value(s.publicKey, 32).Some? &&
    IsNamespace(s.namespace) && IsBytes(s.namespace) && IsBytes(s.signature) && |s.signature| == 64
  }

  function Preamble(): Bytes { MAGIC + Pack(VERSION) }

  /** The five fields in their order, before anything that follows. */
  function Fields(key: Bytes, namespace: Bytes, reserved: Bytes, hash: Bytes, blob: Bytes): Bytes
    requires |key| < LIMIT && |namespace| < LIMIT && |reserved| < LIMIT && |hash| < LIMIT && |blob| < LIMIT
  {
    Frame(key) + (Frame(namespace) + (Frame(reserved) + (Frame(hash) + (Frame(blob) + ""))))
  }

  function EncodeBinary(s: Signature): Bytes
    requires Valid(s)
  {
    Preamble() + BodyOf(s)
  }

  datatype Record = Torn | Record(key: Bytes, namespace: Bytes, reserved: Bytes, hash: Bytes, blob: Bytes)

  function ReadFields(raw: Bytes): (r: Record)
    requires IsBytes(raw)
    ensures r.Record? ==> IsBytes(r.key) && IsBytes(r.namespace) && IsBytes(r.blob) && |r.key| < LIMIT
  {
    match Take(raw)
    case Bad => Torn
    case Took(key, a) =>
      match Take(a)
      case Bad => Torn
      case Took(namespace, b) =>
        match Take(b)
        case Bad => Torn
        case Took(reserved, c) =>
          match Take(c)
          case Bad => Torn
          case Took(hash, d) =>
            match Take(d)
            case Bad => Torn
            case Took(blob, rest) => if rest != "" then Torn else Record(key, namespace, reserved, hash, blob)
  }

  predicate HasPreamble(raw: Bytes)
    requires IsBytes(raw)
  {
    |raw| >= 10 && raw[..6] == MAGIC && Unpack(raw[6..10]) == VERSION
  }

  /** The checks on one record. */
  function FromRecord(r: Record): Option<Signature>
    requires r.Record? && IsBytes(r.key) && IsBytes(r.blob)
  {
    if Value(r.key, 32).None? || !IsNamespace(r.namespace) || r.reserved != "" || r.hash != HASH then None
    else
      match Value(r.blob, 64)
      case None => None
      case Some(bytes) => Some(Signature(r.key, r.namespace, bytes))
  }

  function DecodeBody(body: Bytes): Option<Signature>
    requires IsBytes(body)
  {
    var r := ReadFields(body);
    if r.Torn? then None else FromRecord(r)
  }

  /** Everything the decoder checks before it compares with the encoder. */
  function DecodeFields(raw: Bytes): Option<Signature>
    requires IsBytes(raw)
  {
    if HasPreamble(raw) then DecodeBody(raw[10..]) else None
  }

  function DecodeBinary(raw: Bytes): Option<Signature>
    requires IsBytes(raw)
  {
    match DecodeFields(raw)
    case None => None
    case Some(s) => if !Valid(s) || EncodeBinary(s) != raw then None else Some(s)
  }

  lemma SuffixIsBytes(a: Bytes, b: Bytes)
    requires IsBytes(a + b)
    ensures IsBytes(b)
  {
    assert b == (a + b)[|a|..];
  }

  lemma FieldsBack(raw: Bytes, key: Bytes, namespace: Bytes, reserved: Bytes, hash: Bytes, blob: Bytes)
    requires IsBytes(raw)
    requires |key| < LIMIT && |namespace| < LIMIT && |reserved| < LIMIT && |hash| < LIMIT && |blob| < LIMIT
    requires raw == Fields(key, namespace, reserved, hash, blob)
    ensures ReadFields(raw) == Record(key, namespace, reserved, hash, blob)
  {
    var e := Frame(blob) + "";
    var d := Frame(hash) + e;
    var c := Frame(reserved) + d;
    var b := Frame(namespace) + c;
    SuffixIsBytes(Frame(key), b);
    SuffixIsBytes(Frame(namespace), c);
    SuffixIsBytes(Frame(reserved), d);
    SuffixIsBytes(Frame(hash), e);
    TakeIffFramed(raw, key, b);
    TakeIffFramed(b, namespace, c);
    TakeIffFramed(c, reserved, d);
    TakeIffFramed(d, hash, e);
    TakeIffFramed(e, blob, "");
  }

  lemma FieldsOnly(raw: Bytes, key: Bytes, namespace: Bytes, reserved: Bytes, hash: Bytes, blob: Bytes)
    requires IsBytes(raw) && ReadFields(raw) == Record(key, namespace, reserved, hash, blob)
    ensures |key| < LIMIT && |namespace| < LIMIT && |reserved| < LIMIT && |hash| < LIMIT && |blob| < LIMIT
    ensures raw == Fields(key, namespace, reserved, hash, blob)
  {
    var b := Take(raw).rest;
    var c := Take(b).rest;
    var d := Take(c).rest;
    var e := Take(d).rest;
    TakeIffFramed(raw, key, b);
    TakeIffFramed(b, namespace, c);
    TakeIffFramed(c, reserved, d);
    TakeIffFramed(d, hash, e);
    TakeIffFramed(e, blob, "");
  }

  /** The preamble is ten fixed bytes. */
  lemma PreambleIff(raw: Bytes, body: Bytes)
    requires IsBytes(raw)
    ensures HasPreamble(raw) && raw[10..] == body <==> raw == Preamble() + body
  {
    UnpackPack(VERSION);
    if raw == Preamble() + body {
      assert raw[..6] == MAGIC && raw[6..10] == Pack(VERSION) && raw[10..] == body;
    }
    if HasPreamble(raw) && raw[10..] == body {
      PackUnpack(raw[6..10]);
      assert raw == raw[..6] + raw[6..10] + raw[10..];
    }
  }

  function BodyOf(s: Signature): Bytes
    requires Valid(s)
  {
    Fields(s.publicKey, s.namespace, "", HASH, Blob(s.signature))
  }

  lemma BodyBack(s: Signature)
    requires Valid(s) && IsBytes(BodyOf(s))
    ensures DecodeBody(BodyOf(s)) == Some(s)
  {
    FieldsBack(BodyOf(s), s.publicKey, s.namespace, "", HASH, Blob(s.signature));
    ValueIffBlob(Blob(s.signature), 64, s.signature);
  }

  lemma BodyOnly(body: Bytes, s: Signature)
    requires IsBytes(body) && DecodeBody(body) == Some(s)
    ensures Valid(s) && body == BodyOf(s)
  {
    var r := ReadFields(body);
    FieldsOnly(body, r.key, r.namespace, r.reserved, r.hash, r.blob);
    ValueIffBlob(r.blob, 64, s.signature);
    BlobBytes(s.signature);
  }

  lemma BlobBytes(v: Bytes)
    requires |v| < LIMIT && IsBytes(Blob(v))
    ensures IsBytes(v)
  {
    SuffixIsBytes(Frame(KEY), Frame(v) + "");
    assert Frame(v) + "" == Pack(|v|) + v;
    SuffixIsBytes(Pack(|v|), v);
  }

  /** The checks leave nothing for the closing comparison to refuse. */
  lemma BinaryComparisonHolds(raw: Bytes, s: Signature)
    requires IsBytes(raw) && DecodeFields(raw) == Some(s)
    ensures Valid(s) && EncodeBinary(s) == raw
  {
    PreambleIff(raw, raw[10..]);
    BodyOnly(raw[10..], s);
  }

  lemma BinaryBack(raw: Bytes, s: Signature)
    requires IsBytes(raw) && Valid(s) && raw == EncodeBinary(s)
    ensures DecodeFields(raw) == Some(s)
  {
    PreambleIff(raw, BodyOf(s));
    BodyBack(s);
  }

  /** A binary record is accepted exactly when it is the encoding of the signature it yields. */
  lemma BinaryIffEncoded(raw: Bytes, s: Signature)
    requires IsBytes(raw)
    ensures DecodeBinary(raw) == Some(s) <==> Valid(s) && raw == EncodeBinary(s)
  {
    if Valid(s) && raw == EncodeBinary(s) { BinaryBack(raw, s); }
    if DecodeFields(raw).Some? { BinaryComparisonHolds(raw, DecodeFields(raw).value); }
  }

  // ----- the armor -----

  const BEGIN: Bytes := "-----BEGIN SSH SIGNATURE-----\n"
  const END: Bytes := "-----END SSH SIGNATURE-----\n"
  const WIDTH: nat := 70

  /** Lines of the full width, and a last one that is not longer. */
  function Chunks(s: Bytes): (lines: seq<Bytes>)
    ensures |lines| >= 1
  {
    if |s| <= WIDTH then [s] else [s[..WIDTH]] + Chunks(s[WIDTH..])
  }

  function Concat(lines: seq<Bytes>): Bytes {
    if lines == [] then "" else lines[0] + Concat(lines[1..])
  }

  /** What the decoder demands of the lines. */
  predicate Widths(lines: seq<Bytes>) {
    |lines| >= 1 &&
    if |lines| == 1 then 0 < |lines[0]| <= WIDTH else |lines[0]| == WIDTH && Widths(lines[1..])
  }

  lemma {:induction false} ChunksBack(s: Bytes)
    requires s != ""
    ensures Concat(Chunks(s)) == s && Widths(Chunks(s))
  {
    if |s| <= WIDTH {
      assert Chunks(s)[1..] == [];
    } else {
      ChunksBack(s[WIDTH..]);
      assert Chunks(s)[1..] == Chunks(s[WIDTH..]);
      assert s == s[..WIDTH] + s[WIDTH..];
    }
  }

  lemma {:induction false} ChunksOnly(lines: seq<Bytes>)
    requires Widths(lines)
    ensures Concat(lines) != "" && Chunks(Concat(lines)) == lines
  {
    if |lines| == 1 {
      assert lines == [lines[0]] && lines[1..] == [];
      assert Concat(lines) == lines[0] + "" == lines[0];
    } else {
      var rest := lines[1..];
      ChunksOnly(rest);
      var s := Concat(lines);
      assert s[..WIDTH] == lines[0] && s[WIDTH..] == Concat(rest);
      assert lines == [lines[0]] + rest;
    }
  }

  lemma {:induction false} ChunksPlain(s: Bytes)
    requires '\n' !in s
    ensures Without(Chunks(s), '\n')
  {
    if |s| > WIDTH { ChunksPlain(s[WIDTH..]); }
  }

  function Wrapped(encoded: Bytes): Bytes { Joined(Chunks(encoded), '\n') }

  function Armored(text: Bytes): Bytes { BEGIN + (text + "\n") + END }

  function EncodeArmor(b: Codec, s: Signature): Bytes
    requires Valid(s)
  {
    Armored(Wrapped(b.encode(EncodeBinary(s))))
  }

  /** What lies between the header and the footer, without its final line feed. */
  function Content(raw: Bytes): Option<Bytes> {
    if |raw| <= |BEGIN| + |END| || raw[..|BEGIN|] != BEGIN || raw[|raw| - |END|..] != END then None
    else
      var content := raw[|BEGIN|..|raw| - |END|];
      if content[|content| - 1] != '\n' then None else Some(content[..|content| - 1])
  }

  lemma ContentIff(raw: Bytes, text: Bytes)
    ensures Content(raw) == Some(text) <==> raw == Armored(text)
  {
    if raw == Armored(text) {
      assert raw[..|BEGIN|] == BEGIN && raw[|raw| - |END|..] == END;
      assert raw[|BEGIN|..|raw| - |END|] == text + "\n";
    }
    if Content(raw) == Some(text) {
      var content := raw[|BEGIN|..|raw| - |END|];
      assert content == text + "\n";
      assert raw == raw[..|BEGIN|] + content + raw[|raw| - |END|..];
    }
  }

  /** Everything the decoder checks before it compares with the encoder. */
  function DecodeLines(b: Codec, raw: Bytes): Option<Signature> {
    match Content(raw)
    case None => None
    case Some(text) =>
      var lines := Split(text, '\n');
      if !Widths(lines) then None
      else
        match b.decode(Concat(lines))
        case None => None
        case Some(binary) =>
          if b.encode(binary) != Concat(lines) || !IsBytes(binary) then None else DecodeBinary(binary)
  }

  function DecodeArmor(b: Codec, raw: Bytes): Option<Signature> {
    match DecodeLines(b, raw)
    case None => None
    case Some(s) => if !Valid(s) || EncodeArmor(b, s) != raw then None else Some(s)
  }

  /** The checks leave nothing for the closing comparison to refuse. */
  lemma ArmorComparisonHolds(b: Codec, raw: Bytes, s: Signature)
    requires DecodeLines(b, raw) == Some(s)
    ensures Valid(s) && EncodeArmor(b, s) == raw
  {
    var text := Content(raw).value;
    var lines := Split(text, '\n');
    var binary := b.decode(Concat(lines)).value;
    ContentIff(raw, text);
    BinaryIffEncoded(binary, s);
    ChunksOnly(lines);
    JoinedSplit(text, '\n');
  }

  lemma AppendBytes(a: Bytes, b: Bytes)
    requires IsBytes(a) && IsBytes(b)
    ensures IsBytes(a + b)
  {
  }

  lemma FrameThen(s: Bytes, rest: Bytes)
    requires |s| < LIMIT && IsBytes(s) && IsBytes(rest)
    ensures IsBytes(Frame(s) + rest)
  {
    AppendBytes(Pack(|s|), s);
    AppendBytes(Frame(s), rest);
  }

  lemma ConstantsAreBytes()
    ensures IsBytes(HASH) && IsBytes(KEY) && IsBytes(MAGIC)
  {
  }

  lemma EncodedIsBytes(s: Signature)
    requires Valid(s)
    ensures IsBytes(EncodeBinary(s))
  {
    ConstantsAreBytes();
    FrameThen(s.signature, "");
    FrameThen(KEY, Frame(s.signature) + "");
    var e := Frame(Blob(s.signature)) + "";
    var d := Frame(HASH) + e;
    var c := Frame("") + d;
    var b := Frame(s.namespace) + c;
    FrameThen(Blob(s.signature), "");
    FrameThen(HASH, e);
    FrameThen("", d);
    FrameThen(s.namespace, c);
    FrameThen(s.publicKey, b);
    AppendBytes(MAGIC, Pack(VERSION));
    AppendBytes(Preamble(), Frame(s.publicKey) + b);
  }

  lemma ArmorBack(b: Codec, s: Signature)
    requires Sound(b) && Valid(s)
    ensures DecodeLines(b, EncodeArmor(b, s)) == Some(s)
  {
    var binary := EncodeBinary(s);
    EncodedIsBytes(s);
    var encoded := b.encode(binary);
    BinaryIffEncoded(binary, s);
    ContentIff(EncodeArmor(b, s), Wrapped(encoded));
    ChunksPlain(encoded);
    SplitJoined(Chunks(encoded), '\n');
    assert binary != "" by { assert |binary| >= |MAGIC|; }
    ChunksBack(encoded);
  }

  /** An armored text is accepted exactly when it is the armor of the signature it yields. */
  lemma ArmorIffEncoded(b: Codec, raw: Bytes, s: Signature)
    requires Sound(b)
    ensures DecodeArmor(b, raw) == Some(s) <==> Valid(s) && raw == EncodeArmor(b, s)
  {
    if Valid(s) && raw == EncodeArmor(b, s) { ArmorBack(b, s); }
    if DecodeArmor(b, raw) == Some(s) { ArmorComparisonHolds(b, raw, s); }
  }

  /** With the base64 of RFC 4648 nothing is left to ask. */
  lemma StandardArmorIffEncoded(raw: Bytes, s: Signature)
    ensures DecodeArmor(STANDARD, raw) == Some(s) <==> Valid(s) && raw == EncodeArmor(STANDARD, s)
  {
    StandardIsSound();
    ArmorIffEncoded(STANDARD, raw, s);
  }
}
