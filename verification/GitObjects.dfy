/** Raw Git object records and `cat-file --batch` responses: parsers as exact inverses of the writers. */
module GitObjects {
  import opened Common
  import opened Decimal
  import opened Text

  // ----- objects -----

  predicate IsKind(kind: string) { kind == "blob" || kind == "tree" || kind == "commit" || kind == "tag" }

  datatype Object = Object(kind: string, payload: Bytes)

  predicate Supported(o: Object) { IsKind(o.kind) }

  function Header(o: Object): Bytes { o.kind + " " + Print(|o.payload|) }

  function Encode(o: Object): Option<Bytes> {
    if Supported(o) then Some(Header(o) + "\0" + o.payload) else None
  }

  function Parse(raw: Bytes): Option<Object> {
    var separator := Find(raw, '\0');
    if separator < 0 then None
    else
      var fields := Split(raw[..separator], ' ');
      if |fields| != 2 then None
      else
        var o := Object(fields[0], raw[separator + 1..]);
        if !Supported(o) || !Canonical(fields[1]) || fields[1] != Print(|o.payload|) then None
        else if Encode(o) != Some(raw) then None
        else Some(o)
  }

  /** Numerals and kinds hold none of the separators. */
  lemma PlainNumeral(n: nat)
    ensures Canonical(Print(n)) && ' ' !in Print(n) && '\0' !in Print(n) && '\n' !in Print(n)
  {
    PrintIsCanonical(n);
  }

  lemma PlainKind(kind: string)
    requires IsKind(kind)
    ensures ' ' !in kind && '\0' !in kind && '\n' !in kind
  {
  }

  lemma HeaderFields(o: Object)
    requires Supported(o)
    ensures Split(Header(o), ' ') == [o.kind, Print(|o.payload|)] && '\0' !in Header(o) && '\n' !in Header(o)
  {
    PlainKind(o.kind);
    PlainNumeral(|o.payload|);
    SplitTwo(Header(o), ' ', o.kind, Print(|o.payload|));
  }

  /** Parsing accepts exactly the records the writer produces, and gives back what was written. */
  lemma ParseIffEncoded(raw: Bytes, o: Object)
    ensures Parse(raw) == Some(o) <==> Encode(o) == Some(raw)
  {
    if Encode(o) == Some(raw) {
      HeaderFields(o);
      PrintIsCanonical(|o.payload|);
      FindAt(Header(o), '\0', o.payload);
    }
  }

  /** The parser's closing comparison with the writer is never what refuses a record. */
  lemma FinalComparisonHolds(raw: Bytes, o: Object)
    requires var i := Find(raw, '\0');
             i >= 0 && Split(raw[..i], ' ') == [o.kind, Print(|o.payload|)] && o.payload == raw[i + 1..] && Supported(o)
    ensures Encode(o) == Some(raw)
  {
    SplitTwo(raw[..Find(raw, '\0')], ' ', o.kind, Print(|o.payload|));
    FindBack(raw, '\0');
  }

  /** Two records with the same bytes hold the same object. */
  lemma EncodeIsInjective(a: Object, b: Object)
    requires Supported(a) && Encode(a) == Encode(b)
    ensures a == b
  {
    ParseIffEncoded(Encode(a).value, a);
    ParseIffEncoded(Encode(a).value, b);
  }

  // ----- identities -----

  datatype Hashes = Hashes(sha1: Bytes -> string, sha256: Bytes -> string)

  datatype Verified = Verified(kind: string, oid: string, raw_sha256: string, payload: Bytes)

  function ObjectOf(v: Verified): Object { Object(v.kind, v.payload) }

  function Verify(h: Hashes, oid: Bytes, raw: Bytes): Option<Verified> {
    if !IsHex40(oid) then None
    else
      match Parse(raw)
      case None => None
      case Some(o) => if h.sha1(raw) != oid then None else Some(Verified(o.kind, oid, h.sha256(raw), o.payload))
  }

  /** A verified object: a supported kind whose record hashes to its two identities. */
  predicate Genuine(h: Hashes, v: Verified) {
    var raw := Encode(ObjectOf(v));
    IsHex40(v.oid) && raw.Some? && h.sha1(raw.value) == v.oid && h.sha256(raw.value) == v.raw_sha256
  }

  lemma VerifyIffGenuine(h: Hashes, oid: Bytes, raw: Bytes, v: Verified)
    ensures Verify(h, oid, raw) == Some(v) <==> Genuine(h, v) && v.oid == oid && Encode(ObjectOf(v)) == Some(raw)
  {
    ParseIffEncoded(raw, ObjectOf(v));
    if Parse(raw).Some? { ParseIffEncoded(raw, Parse(raw).value); }
  }

  /** What is verified against a written record is the object that was written. */
  lemma VerifiedIs(h: Hashes, oid: Bytes, o: Object, v: Verified)
    requires Encode(o).Some? && Verify(h, oid, Encode(o).value) == Some(v)
    ensures Genuine(h, v) && v.oid == oid && ObjectOf(v) == o
  {
    VerifyIffGenuine(h, oid, Encode(o).value, v);
    EncodeIsInjective(o, ObjectOf(v));
  }

  // ----- batch responses -----

  const MISSING: Bytes := "missing"

  function MissingHeader(oid: Bytes): Bytes { oid + " " + MISSING }

  function MissingResponse(oid: Bytes): Bytes { MissingHeader(oid) + "\n" }

  function BatchHeader(v: Verified): Bytes { v.oid + " " + Header(ObjectOf(v)) }

  function ObjectResponse(v: Verified): Bytes { BatchHeader(v) + "\n" + v.payload + "\n" }

  datatype Batch = Malformed | Missing | Found(found: Verified)

  /** The object of these header fields, from its payload and the separator after it. */
  function BodyOf(h: Hashes, oid: Bytes, kind: Bytes, body: Bytes): Option<Verified> {
    if body == "" || body[|body| - 1] != '\n' then None
    else
      match Encode(Object(kind, body[..|body| - 1]))
      case None => None
      case Some(raw) => Verify(h, oid, raw)
  }

  function ParseFound(h: Hashes, requested: Bytes, fields: seq<Bytes>, body: Bytes): Batch
    requires |fields| == 3
  {
    if !IsHex40(fields[0]) || fields[0] != requested || !Canonical(fields[2]) || body == "" then Malformed
    else if fields[2] != Print(|body| - 1) then Malformed
    else
      match BodyOf(h, fields[0], fields[1], body)
      case None => Malformed
      case Some(v) => Found(v)
  }

  function ParseBatch(h: Hashes, requested: Bytes, response: Bytes): Batch {
    if !IsHex40(requested) then Malformed
    else
      var lineEnd := Find(response, '\n');
      if lineEnd < 0 then Malformed
      else
        var fields := Split(response[..lineEnd], ' ');
        var body := response[lineEnd + 1..];
        if |fields| == 2 && fields[0] == requested && fields[1] == MISSING then
          if body != "" then Malformed else Missing
        else if |fields| != 3 then Malformed
        else ParseFound(h, requested, fields, body)
  }

  lemma OidIsPlain(oid: Bytes)
    requires IsHex40(oid)
    ensures ' ' !in oid && '\n' !in oid
  {
  }

  lemma BatchHeaderFields(v: Verified)
    requires IsHex40(v.oid) && Supported(ObjectOf(v))
    ensures Split(BatchHeader(v), ' ') == [v.oid, v.kind, Print(|v.payload|)] && '\n' !in BatchHeader(v)
  {
    HeaderFields(ObjectOf(v));
    PlainKind(v.kind);
    PlainNumeral(|v.payload|);
    OidIsPlain(v.oid);
    SplitThree(BatchHeader(v), ' ', v.oid, v.kind, Print(|v.payload|));
  }

  lemma PlainMissing()
    ensures ' ' !in MISSING && '\n' !in MISSING
  {
  }

  /** A body is taken for an object exactly when it is that object's payload and a separator. */
  lemma BodyIff(h: Hashes, oid: Bytes, kind: Bytes, body: Bytes, v: Verified)
    ensures BodyOf(h, oid, kind, body) == Some(v) <==>
            Genuine(h, v) && v.oid == oid && v.kind == kind && body == v.payload + "\n"
  {
    if Genuine(h, v) && v.oid == oid && v.kind == kind && body == v.payload + "\n" {
      assert body[..|body| - 1] == v.payload;
      VerifyIffGenuine(h, oid, Encode(ObjectOf(v)).value, v);
    }
    if BodyOf(h, oid, kind, body) == Some(v) {
      assert body == body[..|body| - 1] + "\n";
      VerifiedIs(h, oid, Object(kind, body[..|body| - 1]), v);
    }
  }

  /** What an accepted response says. */
  lemma FoundBody(h: Hashes, requested: Bytes, fields: seq<Bytes>, body: Bytes, v: Verified)
    requires |fields| == 3
    ensures ParseFound(h, requested, fields, body) == Found(v) <==>
            Genuine(h, v) && v.oid == requested && fields == [v.oid, v.kind, Print(|v.payload|)] &&
            body == v.payload + "\n"
  {
    assert fields == [fields[0], fields[1], fields[2]];
    BodyIff(h, fields[0], fields[1], body, v);
    PrintIsCanonical(|v.payload|);
  }

  lemma ReadsResponse(h: Hashes, v: Verified)
    requires Genuine(h, v)
    ensures ParseBatch(h, v.oid, ObjectResponse(v)) == Found(v)
  {
    BatchHeaderFields(v);
    assert ObjectResponse(v) == BatchHeader(v) + "\n" + (v.payload + "\n");
    FindAt(BatchHeader(v), '\n', v.payload + "\n");
    FoundBody(h, v.oid, Split(BatchHeader(v), ' '), v.payload + "\n", v);
  }

  lemma ReadOnlyResponse(h: Hashes, requested: Bytes, response: Bytes, v: Verified)
    requires ParseBatch(h, requested, response) == Found(v)
    ensures Genuine(h, v) && v.oid == requested && response == ObjectResponse(v)
  {
    var lineEnd := Find(response, '\n');
    var line := response[..lineEnd];
    FoundBody(h, requested, Split(line, ' '), response[lineEnd + 1..], v);
    SplitThree(line, ' ', v.oid, v.kind, Print(|v.payload|));
    FindBack(response, '\n');
    LinesOfResponse(v, line, response[lineEnd + 1..]);
  }

  lemma LinesOfResponse(v: Verified, line: Bytes, body: Bytes)
    requires line == BatchHeader(v) && body == v.payload + "\n"
    ensures line + "\n" + body == ObjectResponse(v)
  {
  }

  /** A response is read as an object exactly when it is that object's response, byte for byte. */
  lemma FoundIffResponse(h: Hashes, requested: Bytes, response: Bytes, v: Verified)
    ensures ParseBatch(h, requested, response) == Found(v) <==>
            Genuine(h, v) && v.oid == requested && response == ObjectResponse(v)
  {
    if ParseBatch(h, requested, response) == Found(v) {
      ReadOnlyResponse(h, requested, response, v);
    } else if Genuine(h, v) {
      ReadsResponse(h, v);
    }
  }

  /** A response is read as a missing object exactly when it says so for the requested identity. */
  lemma MissingIffResponse(h: Hashes, requested: Bytes, response: Bytes)
    ensures ParseBatch(h, requested, response) == Missing <==> IsHex40(requested) && response == MissingResponse(requested)
  {
    PlainMissing();
    if IsHex40(requested) && response == MissingResponse(requested) {
      OidIsPlain(requested);
      SplitTwo(MissingHeader(requested), ' ', requested, MISSING);
      assert response == MissingHeader(requested) + "\n" + "";
      FindAt(MissingHeader(requested), '\n', "");
    }
    if ParseBatch(h, requested, response) == Missing {
      FindBack(response, '\n');
      var line := response[..Find(response, '\n')];
      assert Split(line, ' ') == [requested, MISSING];
      SplitTwo(line, ' ', requested, MISSING);
    }
  }
}
