/** Reading batch responses from a pipe that delivers its bytes in arbitrary chunks. */
module GitStream {
  import opened Common
  import opened Decimal
  import opened Text
  import opened GitObjects

  const MAX_HEADER: nat := 512

  // ----- one response, on the bytes alone -----

  datatype Reading = Refused | NoObject(rest: Bytes) | Gave(found: Verified, rest: Bytes)

  function AfterBatch(b: Batch, rest: Bytes): Reading {
    match b
    case Malformed => Refused
    case Missing => NoObject(rest)
    case Found(v) => Gave(v, rest)
  }

  function AfterBody(v: Option<Verified>, rest: Bytes): Reading {
    match v
    case None => Refused
    case Some(found) => Gave(found, rest)
  }

  function ReadBody(h: Hashes, requested: Option<Bytes>, line: Bytes, fields: seq<Bytes>, body: Bytes, rest: Bytes): Reading
    requires |fields| == 3 && body != ""
  {
    if requested.Some? then AfterBatch(ParseBatch(h, requested.value, line + "\n" + body), rest)
    else AfterBody(BodyOf(h, fields[0], fields[1], body), rest)
  }

  /** The payload and its separator, after a header line with three fields. */
  function ReadFound(h: Hashes, max: nat, requested: Option<Bytes>, line: Bytes, fields: seq<Bytes>, after: Bytes): Reading
    requires |fields| == 3
  {
    if !IsHex40(fields[0]) || (requested.Some? && fields[0] != requested.value) || !Canonical(fields[2]) then Refused
    else
      var size := Read(fields[2]);
      if size > max || |after| < size + 1 then Refused
      else ReadBody(h, requested, line, fields, after[..size + 1], after[size + 1..])
  }

  /** What a header line and the bytes after it give. */
  function Interpret(h: Hashes, max: nat, requested: Option<Bytes>, line: Bytes, fields: seq<Bytes>, after: Bytes): Reading {
    if |fields| == 2 && fields[1] == MISSING then
      if requested.None? || fields[0] != requested.value then Refused else NoObject(after)
    else if |fields| != 3 then Refused
    else ReadFound(h, max, requested, line, fields, after)
  }

  /** One response from the front of `data`; no requested identity stands for the target ref. */
  function ReadOne(h: Hashes, max: nat, requested: Option<Bytes>, data: Bytes): Reading {
    var lineEnd := Find(data, '\n');
    if lineEnd < 0 || lineEnd >= MAX_HEADER then Refused
    else
      var line := data[..lineEnd];
      Interpret(h, max, requested, line, Split(line, ' '), data[lineEnd + 1..])
  }

  /** The object answers the request and fits the reader's bounds. */
  predicate Fits(h: Hashes, max: nat, requested: Option<Bytes>, v: Verified) {
    Genuine(h, v) && (requested.Some? ==> v.oid == requested.value) &&
    |v.payload| <= max && |BatchHeader(v)| < MAX_HEADER
  }

  predicate LineOf(line: Bytes, fields: seq<Bytes>) {
    |fields| == 3 && line == fields[0] + " " + (fields[1] + " " + fields[2]) && '\n' !in line && |line| < MAX_HEADER
  }

  function FieldsOf(v: Verified): seq<Bytes> { [v.oid, v.kind, Print(|v.payload|)] }

  lemma BodyFits(h: Hashes, requested: Option<Bytes>, line: Bytes, v: Verified, rest: Bytes)
    requires Genuine(h, v) && (requested.Some? ==> v.oid == requested.value) && line == BatchHeader(v)
    ensures ReadBody(h, requested, line, FieldsOf(v), v.payload + "\n", rest) == Gave(v, rest)
  {
    if requested.Some? {
      assert line + "\n" + (v.payload + "\n") == ObjectResponse(v);
      FoundIffResponse(h, v.oid, ObjectResponse(v), v);
    } else {
      BodyIff(h, v.oid, v.kind, v.payload + "\n", v);
    }
  }

  lemma FoundFits(
      h: Hashes, max: nat, requested: Option<Bytes>, line: Bytes, after: Bytes, v: Verified, rest: Bytes)
    requires Fits(h, max, requested, v) && line == BatchHeader(v) && after == v.payload + "\n" + rest
    ensures ReadFound(h, max, requested, line, FieldsOf(v), after) == Gave(v, rest)
  {
    PrintIsCanonical(|v.payload|);
    ReadPrint(|v.payload|);
    var size := |v.payload|;
    assert after[..size + 1] == v.payload + "\n" && after[size + 1..] == rest;
    BodyFits(h, requested, line, v, rest);
  }

  lemma FoundOnly(
      h: Hashes, max: nat, requested: Option<Bytes>, line: Bytes, fields: seq<Bytes>, after: Bytes, v: Verified, rest: Bytes)
    requires LineOf(line, fields) && ReadFound(h, max, requested, line, fields, after) == Gave(v, rest)
    ensures Fits(h, max, requested, v) && line == BatchHeader(v) && after == v.payload + "\n" + rest
  {
    var size := Read(fields[2]);
    PrintRead(fields[2]);
    BodyOnly(h, requested, line, fields, after[..size + 1], after[size + 1..], v, rest);
    BodyAndRest(after, size + 1, v.payload, rest);
  }

  lemma BodyOnly(
      h: Hashes, requested: Option<Bytes>, line: Bytes, fields: seq<Bytes>, body: Bytes, left: Bytes, v: Verified, rest: Bytes)
    requires LineOf(line, fields) && body != "" && fields[2] == Print(|body| - 1)
    requires ReadBody(h, requested, line, fields, body, left) == Gave(v, rest)
    ensures Genuine(h, v) && (requested.Some? ==> v.oid == requested.value) && left == rest
    ensures line == BatchHeader(v) && body == v.payload + "\n"
  {
    match requested
    case Some(oid) => RequestedOnly(h, oid, line, body, left, v, rest);
    case None => TargetOnly(h, line, fields, body, left, v, rest);
  }

  lemma BodyAndRest(after: Bytes, n: nat, payload: Bytes, rest: Bytes)
    requires n <= |after| && after[..n] == payload + "\n" && after[n..] == rest
    ensures after == payload + "\n" + rest
  {
  }

  lemma RequestedOnly(h: Hashes, requested: Bytes, line: Bytes, body: Bytes, left: Bytes, v: Verified, rest: Bytes)
    requires '\n' !in line
    requires AfterBatch(ParseBatch(h, requested, line + "\n" + body), left) == Gave(v, rest)
    ensures Genuine(h, v) && v.oid == requested && line == BatchHeader(v) && body == v.payload + "\n" && left == rest
  {
    FoundIffResponse(h, requested, line + "\n" + body, v);
    ResponseLines(v, line, body);
  }

  lemma ResponseLines(v: Verified, line: Bytes, body: Bytes)
    requires IsHex40(v.oid) && Supported(ObjectOf(v)) && '\n' !in line && line + "\n" + body == ObjectResponse(v)
    ensures line == BatchHeader(v) && body == v.payload + "\n"
  {
    HeaderIsOneLine(v);
    assert ObjectResponse(v) == BatchHeader(v) + "\n" + (v.payload + "\n");
    SameSplit(line, body, BatchHeader(v), v.payload + "\n");
  }

  lemma TargetOnly(
      h: Hashes, line: Bytes, fields: seq<Bytes>, body: Bytes, left: Bytes, v: Verified, rest: Bytes)
    requires LineOf(line, fields) && body != "" && fields[2] == Print(|body| - 1)
    requires AfterBody(BodyOf(h, fields[0], fields[1], body), left) == Gave(v, rest)
    ensures Genuine(h, v) && line == BatchHeader(v) && body == v.payload + "\n" && left == rest
  {
    BodyIff(h, fields[0], fields[1], body, v);
    HeaderFrom(line, fields, v);
  }

  lemma HeaderFrom(line: Bytes, fields: seq<Bytes>, v: Verified)
    requires LineOf(line, fields) && fields[0] == v.oid && fields[1] == v.kind && fields[2] == Print(|v.payload|)
    ensures line == BatchHeader(v)
  {
  }

  lemma HeaderIsOneLine(v: Verified)
    requires IsHex40(v.oid) && Supported(ObjectOf(v))
    ensures '\n' !in BatchHeader(v)
  {
    BatchHeaderFields(v);
  }

  /** A text has one first line. */
  lemma SameSplit(a: Bytes, b: Bytes, c: Bytes, d: Bytes)
    requires '\n' !in a && '\n' !in c && a + "\n" + b == c + "\n" + d
    ensures a == c && b == d
  {
    FindAt(a, '\n', b);
    FindAt(c, '\n', d);
  }

  lemma ReadsAfterLine(h: Hashes, max: nat, requested: Option<Bytes>, line: Bytes, after: Bytes)
    requires '\n' !in line && |line| < MAX_HEADER
    ensures ReadOne(h, max, requested, line + "\n" + after) ==
            Interpret(h, max, requested, line, Split(line, ' '), after)
  {
    FindAt(line, '\n', after);
  }

  lemma GivesResponse(h: Hashes, max: nat, requested: Option<Bytes>, v: Verified, rest: Bytes)
    requires Fits(h, max, requested, v)
    ensures ReadOne(h, max, requested, ObjectResponse(v) + rest) == Gave(v, rest)
  {
    var (line, after) := (BatchHeader(v), v.payload + "\n" + rest);
    ResponseFrom(v, line, after, rest);
    BatchHeaderFields(v);
    ReadsAfterLine(h, max, requested, line, after);
    FoundFits(h, max, requested, line, after, v, rest);
  }

  lemma SplitLine(line: Bytes)
    requires '\n' !in line && |line| < MAX_HEADER && |Split(line, ' ')| == 3
    ensures LineOf(line, Split(line, ' '))
  {
    var f := Split(line, ' ');
    assert f == [f[0], f[1], f[2]];
    SplitThree(line, ' ', f[0], f[1], f[2]);
  }

  lemma GivesOnlyResponse(h: Hashes, max: nat, requested: Option<Bytes>, data: Bytes, v: Verified, rest: Bytes)
    requires ReadOne(h, max, requested, data) == Gave(v, rest)
    ensures Fits(h, max, requested, v) && data == ObjectResponse(v) + rest
  {
    FindBack(data, '\n');
    var i := Find(data, '\n');
    SplitLine(data[..i]);
    FoundOnly(h, max, requested, data[..i], Split(data[..i], ' '), data[i + 1..], v, rest);
    ResponseFrom(v, data[..i], data[i + 1..], rest);
  }

  lemma ResponseFrom(v: Verified, line: Bytes, after: Bytes, rest: Bytes)
    requires line == BatchHeader(v) && after == v.payload + "\n" + rest
    ensures line + "\n" + after == ObjectResponse(v) + rest
  {
  }

  /** The read gives an object exactly when the data starts with that object's response, and consumes just it. */
  lemma GaveExactly(h: Hashes, max: nat, requested: Option<Bytes>, data: Bytes, v: Verified, rest: Bytes)
    ensures ReadOne(h, max, requested, data) == Gave(v, rest) <==>
            Fits(h, max, requested, v) && data == ObjectResponse(v) + rest
  {
    if Fits(h, max, requested, v) { GivesResponse(h, max, requested, v, rest); }
    if ReadOne(h, max, requested, data) == Gave(v, rest) { GivesOnlyResponse(h, max, requested, data, v, rest); }
  }

  lemma ReportsMissing(h: Hashes, max: nat, requested: Bytes, rest: Bytes)
    requires IsHex40(requested)
    ensures ReadOne(h, max, Some(requested), MissingResponse(requested) + rest) == NoObject(rest)
  {
    PlainMissing();
    OidIsPlain(requested);
    SplitTwo(MissingHeader(requested), ' ', requested, MISSING);
    assert MissingResponse(requested) + rest == MissingHeader(requested) + "\n" + rest;
    FindAt(MissingHeader(requested), '\n', rest);
  }

  lemma ReportsOnlyMissing(h: Hashes, max: nat, requested: Bytes, data: Bytes, rest: Bytes)
    requires IsHex40(requested) && ReadOne(h, max, Some(requested), data) == NoObject(rest)
    ensures data == MissingResponse(requested) + rest
  {
    FindBack(data, '\n');
    var i := Find(data, '\n');
    var line := data[..i];
    if |Split(line, ' ')| == 3 {
      NotMissing(h, max, requested, line, Split(line, ' '), data[i + 1..]);
    } else {
      assert Split(line, ' ') == [requested, MISSING];
      SplitTwo(line, ' ', requested, MISSING);
    }
  }

  /** The read reports a missing object exactly when the data starts with that report, and consumes just it. */
  lemma MissingExactly(h: Hashes, max: nat, requested: Bytes, data: Bytes, rest: Bytes)
    requires IsHex40(requested)
    ensures ReadOne(h, max, Some(requested), data) == NoObject(rest) <==> data == MissingResponse(requested) + rest
  {
    ReportsMissing(h, max, requested, rest);
    if ReadOne(h, max, Some(requested), data) == NoObject(rest) {
      ReportsOnlyMissing(h, max, requested, data, rest);
    }
  }

  /** A reading after a header with three fields is refused or that of some body. */
  lemma FoundIsBody(h: Hashes, max: nat, requested: Bytes, line: Bytes, fields: seq<Bytes>, after: Bytes)
      returns (body: Bytes, rest: Bytes)
    requires |fields| == 3
    ensures body != ""
    ensures ReadFound(h, max, Some(requested), line, fields, after) in
            {Refused, ReadBody(h, Some(requested), line, fields, body, rest)}
  {
    var size := if Canonical(fields[2]) then Read(fields[2]) else |after|;
    if size < |after| {
      body, rest := after[..size + 1], after[size + 1..];
    } else {
      body, rest := "\n", "";
    }
  }

  /** A header with three fields is never read as a missing object. */
  lemma NotMissing(h: Hashes, max: nat, requested: Bytes, line: Bytes, fields: seq<Bytes>, after: Bytes)
    requires fields == Split(line, ' ') && |fields| == 3 && '\n' !in line
    ensures !ReadFound(h, max, Some(requested), line, fields, after).NoObject?
  {
    var body, rest := FoundIsBody(h, max, requested, line, fields, after);
    NotMissingBody(h, requested, line, fields, body, rest);
  }

  lemma NotMissingBody(h: Hashes, requested: Bytes, line: Bytes, fields: seq<Bytes>, body: Bytes, rest: Bytes)
    requires fields == Split(line, ' ') && |fields| == 3 && '\n' !in line && body != ""
    ensures !ReadBody(h, Some(requested), line, fields, body, rest).NoObject?
  {
    FindAt(line, '\n', body);
  }

  /** The data does not start with the response of any object that answers the request. */
  ghost predicate NoAnswer(h: Hashes, max: nat, requested: Option<Bytes>, data: Bytes) {
    forall v, rest :: Fits(h, max, requested, v) ==> data != ObjectResponse(v) + rest
  }

  lemma NothingGiven(h: Hashes, max: nat, requested: Option<Bytes>, data: Bytes)
    ensures !ReadOne(h, max, requested, data).Gave? ==> NoAnswer(h, max, requested, data)
  {
    forall v, rest | Fits(h, max, requested, v) && data == ObjectResponse(v) + rest
      ensures ReadOne(h, max, requested, data).Gave?
    {
      GaveExactly(h, max, requested, data, v, rest);
    }
  }

  // ----- a whole conversation -----

  /** What the Git process says to one request. */
  datatype Answer = Absent(oid: Bytes) | Present(found: Verified)

  function Requested(a: Answer): Bytes {
    match a
    case Absent(oid) => oid
    case Present(v) => v.oid
  }

  function Response(a: Answer): Bytes {
    match a
    case Absent(oid) => MissingResponse(oid)
    case Present(v) => ObjectResponse(v)
  }

  predicate WellFormed(h: Hashes, max: nat, a: Answer) {
    match a
    case Absent(oid) => IsHex40(oid)
    case Present(v) => Fits(h, max, Some(v.oid), v)
  }

  function Responses(answers: seq<Answer>): Bytes {
    if answers == [] then "" else Response(answers[0]) + Responses(answers[1..])
  }

  /** The unread bytes after the first `k` reads, each asking for the next identity. */
  function After(h: Hashes, max: nat, answers: seq<Answer>, k: nat, data: Bytes): Option<Bytes>
    requires k <= |answers|
  {
    if k == 0 then Some(data)
    else
      match ReadOne(h, max, Some(Requested(answers[0])), data)
      case Refused => None
      case NoObject(rest) => After(h, max, answers[1..], k - 1, rest)
      case Gave(_, rest) => After(h, max, answers[1..], k - 1, rest)
  }

  function Expected(a: Answer, rest: Bytes): Reading {
    match a
    case Absent(_) => NoObject(rest)
    case Present(v) => Gave(v, rest)
  }

  lemma OneAnswer(h: Hashes, max: nat, a: Answer, rest: Bytes)
    requires WellFormed(h, max, a)
    ensures ReadOne(h, max, Some(Requested(a)), Response(a) + rest) == Expected(a, rest)
  {
    match a
    case Absent(oid) => MissingExactly(h, max, oid, Response(a) + rest, rest);
    case Present(v) => GaveExactly(h, max, Some(v.oid), Response(a) + rest, v, rest);
  }

  lemma AfterOne(h: Hashes, max: nat, answers: seq<Answer>, k: nat, data: Bytes, left: Bytes)
    requires 0 < k <= |answers|
    requires ReadOne(h, max, Some(Requested(answers[0])), data) == Expected(answers[0], left)
    ensures After(h, max, answers, k, data) == After(h, max, answers[1..], k - 1, left)
  {
  }

  lemma FirstResponse(answers: seq<Answer>, tail: Bytes)
    requires answers != []
    ensures Responses(answers) + tail == Response(answers[0]) + (Responses(answers[1..]) + tail)
  {
  }

  /**
   On any concatenation of well-formed responses the reads stay aligned: after `k` reads exactly the
   first `k` responses are consumed, and the next read returns the `k`-th object.
   */
  lemma {:induction false} ReadsStayAligned(h: Hashes, max: nat, answers: seq<Answer>, k: nat, tail: Bytes)
    requires k < |answers| && forall a | a in answers :: WellFormed(h, max, a)
    ensures var left := Responses(answers[k + 1..]) + tail;
            After(h, max, answers, k, Responses(answers) + tail) == Some(Response(answers[k]) + left) &&
            ReadOne(h, max, Some(Requested(answers[k])), Response(answers[k]) + left) == Expected(answers[k], left)
    decreases k
  {
    var left := Responses(answers[1..]) + tail;
    FirstResponse(answers, tail);
    OneAnswer(h, max, answers[0], left);
    if k > 0 {
      ReadsStayAligned(h, max, answers[1..], k - 1, tail);
      LaterAnswers(answers, k);
      AfterOne(h, max, answers, k, Responses(answers) + tail, left);
    }
  }

  lemma LaterAnswers(answers: seq<Answer>, k: nat)
    requires 0 < k < |answers|
    ensures answers[1..][k - 1] == answers[k] && answers[1..][k..] == answers[k + 1..]
  {
  }

  // ----- a whole conversation, on the bytes alone -----

  /** What one request after the other gets: all of them and the rest, or up to the refused one. */
  datatype Talked = Lost(got: seq<Option<Verified>>) | Heard(got: seq<Option<Verified>>, rest: Bytes)

  function Before(got: seq<Option<Verified>>, t: Talked): Talked {
    t.(got := got + t.got)
  }

  function Talk(h: Hashes, max: nat, oids: seq<Bytes>, data: Bytes): Talked {
    if oids == [] then Heard([], data)
    else
      match ReadOne(h, max, Some(oids[0]), data)
      case Refused => Lost([None])
      case NoObject(rest) => Before([None], Talk(h, max, oids[1..], rest))
      case Gave(v, rest) => Before([Some(v)], Talk(h, max, oids[1..], rest))
  }

  function Held(a: Answer): Option<Verified> {
    match a
    case Absent(_) => None
    case Present(v) => Some(v)
  }

  function AllHeld(answers: seq<Answer>): (got: seq<Option<Verified>>)
    ensures |got| == |answers| && forall k | 0 <= k < |answers| :: got[k] == Held(answers[k])
  {
    seq(|answers|, i requires 0 <= i < |answers| => Held(answers[i]))
  }

  function AllRequested(answers: seq<Answer>): (oids: seq<Bytes>)
    ensures |oids| == |answers| && forall k | 0 <= k < |answers| :: oids[k] == Requested(answers[k])
  {
    seq(|answers|, i requires 0 <= i < |answers| => Requested(answers[i]))
  }

  lemma TalkFirst(h: Hashes, max: nat, answers: seq<Answer>, tail: Bytes)
    requires answers != [] && WellFormed(h, max, answers[0])
    ensures Talk(h, max, AllRequested(answers), Responses(answers) + tail) ==
            Before([Held(answers[0])], Talk(h, max, AllRequested(answers[1..]), Responses(answers[1..]) + tail))
  {
    var (first, left) := (answers[0], Responses(answers[1..]) + tail);
    FirstResponse(answers, tail);
    assert AllRequested(answers)[1..] == AllRequested(answers[1..]);
    OneAnswer(h, max, first, left);
  }

  lemma AllHeldFirst(answers: seq<Answer>)
    requires answers != []
    ensures AllHeld(answers) == [Held(answers[0])] + AllHeld(answers[1..])
  {
  }

  /** On the responses to its requests a conversation hears every answer in its place, and nothing more. */
  lemma {:induction false} TalkIsAligned(h: Hashes, max: nat, answers: seq<Answer>, tail: Bytes)
    requires forall i | 0 <= i < |answers| :: WellFormed(h, max, answers[i])
    ensures Talk(h, max, AllRequested(answers), Responses(answers) + tail) == Heard(AllHeld(answers), tail)
  {
    if answers == [] {
      assert AllRequested(answers) == [] && AllHeld(answers) == [];
    } else {
      TalkIsAligned(h, max, answers[1..], tail);
      TalkFirst(h, max, answers, tail);
      AllHeldFirst(answers);
    }
  }
}
