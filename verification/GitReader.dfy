/** The batch reader as an object on a pipe: partial reads, partial writes, failures, and its latch. */
module GitReader {
  import opened Common
  import opened Decimal
  import opened Text
  import opened GitObjects
  import opened GitStream

  /**
   A pipe pair. Reads deliver any non-empty part of what is asked. Writes go through a buffer that may
   reach the other end at any time and does so at the latest when it is flushed. A faulty pipe may fail
   at any call.
   */
  class Pipe {
    const faulty: bool
    var unread: Bytes
    var pending: Bytes
    var sent: Bytes

    constructor (faulty: bool, unread: Bytes)
      ensures this.faulty == faulty && this.unread == unread && pending == "" && sent == ""
    {
      this.faulty, this.unread, this.pending, this.sent := faulty, unread, "", "";
    }

    /** Everything written so far, delivered or not. */
    function Written(): Bytes
      reads this
    {
      sent + pending
    }

    /** An empty chunk means the end of the data. */
    method Receive(n: nat) returns (ok: bool, chunk: Bytes)
      requires n > 0
      modifies this`unread
      ensures !ok ==> faulty && unread == old(unread)
      ensures ok ==> |chunk| <= n && old(unread) == chunk + unread && (chunk == "" <==> old(unread) == "")
    {
      if faulty {
        var fails: bool := *;
        if fails { return false, ""; }
      }
      if unread == "" { return true, ""; }
      var most := if n < |unread| then n else |unread|;
      var k: nat := *;
      var count := if 1 <= k <= most then k else most;
      chunk := unread[..count];
      unread := unread[count..];
      ok := true;
    }

    /** Some part of the buffer reaches the other end. */
    method Drain()
      modifies this`pending, this`sent
      ensures Written() == old(Written()) && old(sent) <= sent
    {
      var k: nat := *;
      var count := if 0 <= k <= |pending| then k else 0;
      sent, pending := sent + pending[..count], pending[count..];
    }

    /** No progress, or an error, is a failure. */
    method Send(view: Bytes) returns (ok: bool, count: nat)
      requires view != ""
      modifies this`pending, this`sent
      ensures old(sent) <= sent
      ensures !ok ==> faulty && Written() == old(Written())
      ensures ok ==> 1 <= count <= |view| && Written() == old(Written()) + view[..count]
    {
      Drain();
      if faulty {
        var fails: bool := *;
        if fails { return false, 0; }
      }
      var k: nat := *;
      count := if 1 <= k <= |view| then k else |view|;
      pending := pending + view[..count];
      Drain();
      ok := true;
    }

    method Flush() returns (ok: bool)
      modifies this`pending, this`sent
      ensures Written() == old(Written()) && old(sent) <= sent
      ensures if ok then pending == "" else faulty
    {
      Drain();
      if faulty {
        var fails: bool := *;
        if fails { return false; }
      }
      sent, pending := sent + pending, "";
      ok := true;
    }
  }

  /** Exactly `size` bytes for every way the pipe cuts them up. */
  method ReadExact(pipe: Pipe, size: nat) returns (ok: bool, result: Bytes)
    modifies pipe`unread
    ensures ok ==> |result| == size && old(pipe.unread) == result + pipe.unread
    ensures !ok ==> pipe.faulty || |old(pipe.unread)| < size
  {
    result := "";
    while |result| < size
      invariant |result| <= size && old(pipe.unread) == result + pipe.unread
    {
      var received, chunk := pipe.Receive(size - |result|);
      if !received || chunk == "" { return false, ""; }
      result := result + chunk;
    }
    ok := true;
  }

  /** No line ends within the first `n` bytes. */
  predicate Unbroken(s: Bytes, n: nat) { forall i | 0 <= i < n && i < |s| :: s[i] != '\n' }

  /** The first line without its line feed, which is consumed too; refused when it passes the bound. */
  method ReadLine(pipe: Pipe) returns (ok: bool, line: Bytes)
    modifies pipe`unread
    ensures ok ==> Unbroken(line, |line|) && |line| < MAX_HEADER && old(pipe.unread) == line + "\n" + pipe.unread
    ensures !ok ==> pipe.faulty || Unbroken(old(pipe.unread), MAX_HEADER)
  {
    line := "";
    while |line| < MAX_HEADER
      invariant |line| <= MAX_HEADER && Unbroken(line, |line|) && old(pipe.unread) == line + pipe.unread
    {
      var received, chunk := ReadExact(pipe, 1);
      if !received { return false, ""; }
      if chunk[0] == '\n' { return true, line; }
      line := line + chunk;
    }
    ok := false;
  }

  lemma UnbrokenIsLong(s: Bytes, n: nat)
    requires Unbroken(s, n)
    ensures Find(s, '\n') < 0 || Find(s, '\n') >= n
  {
    FindsFirst(s, '\n');
  }

  /** Success means delivered; after a failure some part may still be on its way. */
  method WriteAll(pipe: Pipe, raw: Bytes) returns (ok: bool)
    modifies pipe`pending, pipe`sent
    ensures old(pipe.sent) <= pipe.sent
    ensures ok ==> pipe.pending == "" && pipe.sent == old(pipe.Written()) + raw
    ensures !ok ==> pipe.faulty && old(pipe.Written()) <= pipe.Written() <= old(pipe.Written()) + raw
  {
    var view := raw;
    while view != ""
      invariant old(pipe.sent) <= pipe.sent && old(pipe.Written()) <= pipe.Written()
      invariant pipe.Written() + view == old(pipe.Written()) + raw
      decreases |view|
    {
      var accepted, count := pipe.Send(view);
      if !accepted { return false; }
      view := view[count..];
    }
    ok := pipe.Flush();
  }

  function Requests(oids: seq<Bytes>): Bytes {
    if oids == [] then "" else Requests(oids[..|oids| - 1]) + (oids[|oids| - 1] + "\n")
  }

  lemma RequestsGrow(sent: Bytes, oids: seq<Bytes>, i: nat)
    requires i < |oids|
    ensures sent + Requests(oids[..i + 1]) == sent + Requests(oids[..i]) + (oids[i] + "\n")
  {
    assert oids[..i + 1][..i] == oids[..i];
    assert sent + (Requests(oids[..i]) + (oids[i] + "\n")) == sent + Requests(oids[..i]) + (oids[i] + "\n");
  }

  lemma TalkStarts(h: Hashes, max: nat, oids: seq<Bytes>, data: Bytes)
    ensures Before([], Talk(h, max, oids[0..], data)) == Talk(h, max, oids, data) && Requests(oids[..0]) == ""
  {
    var t := Talk(h, max, oids, data);
    assert oids[0..] == oids && [] + t.got == t.got;
  }

  lemma TalkEnds(h: Hashes, max: nat, oids: seq<Bytes>, got: seq<Option<Verified>>, data: Bytes)
    ensures Before(got, Talk(h, max, oids[|oids|..], data)) == Heard(got, data)
  {
    assert oids[|oids|..] == [] && got + [] == got;
  }

  /** The caller has what the bytes give, and the reader is usable unless they were refused. */
  predicate Answered(reading: Reading, got: Option<Verified>, failed: bool, unread: Bytes) {
    match reading
    case Refused => got.None? && failed
    case NoObject(rest) => got.None? && !failed && unread == rest
    case Gave(v, rest) => got == Some(v) && !failed && unread == rest
  }

  lemma BeforeTwice(got: seq<Option<Verified>>, next: Option<Verified>, t: Talked)
    ensures Before(got, Before([next], t)) == Before(got + [next], t)
  {
    assert got + ([next] + t.got) == got + [next] + t.got;
  }

  /** One more request of a conversation. */
  lemma TalkStep(
      h: Hashes, max: nat, oids: seq<Bytes>, i: nat, data: Bytes, got: seq<Option<Verified>>, next: Option<Verified>,
      failed: bool, left: Bytes)
    requires i < |oids| && Answered(ReadOne(h, max, Some(oids[i]), data), next, failed, left)
    ensures Before(got, Talk(h, max, oids[i..], data)) ==
            if failed then Lost(got + [next]) else Before(got + [next], Talk(h, max, oids[i + 1..], left))
  {
    assert oids[i..][0] == oids[i] && oids[i..][1..] == oids[i + 1..];
    if !failed { BeforeTwice(got, next, Talk(h, max, oids[i + 1..], left)); }
  }

  class BatchReader {
    const h: Hashes
    const max: nat
    const pipe: Pipe
    var failed: bool

    constructor (h: Hashes, max: nat, pipe: Pipe)
      ensures this.h == h && this.max == max && this.pipe == pipe && !failed
    {
      this.h, this.max, this.pipe, this.failed := h, max, pipe, false;
    }

    /** The reader's view of one response. */
    ghost function Outcome(requested: Option<Bytes>, data: Bytes): Reading {
      ReadOne(h, max, requested, data)
    }

    /** A reader that failed once stays unusable; otherwise the result is that of the bytes alone. */
    method Response(requested: Option<Bytes>) returns (ok: bool, got: Option<Verified>)
      modifies this`failed, pipe`unread
      ensures old(failed) ==> !ok && pipe.unread == old(pipe.unread)
      ensures failed <==> !ok
      ensures ok ==> Outcome(requested, old(pipe.unread)) ==
                     (if got.None? then NoObject(pipe.unread) else Gave(got.value, pipe.unread))
      ensures !ok ==> old(failed) || pipe.faulty || Outcome(requested, old(pipe.unread)).Refused?
    {
      if failed { return false, None; }
      ok, got := ReadResponse(requested);
      failed := !ok;
    }

    method ReadResponse(requested: Option<Bytes>) returns (ok: bool, got: Option<Verified>)
      modifies pipe`unread
      ensures ok ==> Outcome(requested, old(pipe.unread)) ==
                     (if got.None? then NoObject(pipe.unread) else Gave(got.value, pipe.unread))
      ensures !ok ==> pipe.faulty || Outcome(requested, old(pipe.unread)).Refused?
    {
      var read, line := ReadLine(pipe);
      if !read {
        if !pipe.faulty { UnbrokenIsLong(old(pipe.unread), MAX_HEADER); }
        return false, None;
      }
      FindAt(line, '\n', pipe.unread);
      var fields := Split(line, ' ');
      if |fields| == 2 && fields[1] == MISSING {
        if requested.None? || fields[0] != requested.value { return false, None; }
        return true, None;
      }
      if |fields| != 3 { return false, None; }
      ok, got := ReadPayload(requested, line, fields);
    }

    method ReadPayload(requested: Option<Bytes>, line: Bytes, fields: seq<Bytes>)
      returns (ok: bool, got: Option<Verified>)
      requires |fields| == 3
      modifies pipe`unread
      ensures ok ==> ReadFound(h, max, requested, line, fields, old(pipe.unread)) ==
                     (if got.None? then NoObject(pipe.unread) else Gave(got.value, pipe.unread))
      ensures !ok ==> pipe.faulty || ReadFound(h, max, requested, line, fields, old(pipe.unread)).Refused?
    {
      if !IsHex40(fields[0]) { return false, None; }
      if requested.Some? && fields[0] != requested.value { return false, None; }
      if !Canonical(fields[2]) { return false, None; }
      var size := Read(fields[2]);
      if size > max { return false, None; }
      var read, body := ReadExact(pipe, size + 1);
      if !read { return false, None; }
      assert old(pipe.unread)[..size + 1] == body && old(pipe.unread)[size + 1..] == pipe.unread;
      if requested.Some? {
        match ParseBatch(h, requested.value, line + "\n" + body) {
          case Malformed => return false, None;
          case Missing => return true, None;
          case Found(v) => return true, Some(v);
        }
      }
      got := BodyOf(h, fields[0], fields[1], body);
      ok := got.Some?;
    }

    /** A request line, and the reading of its response. */
    method Ask(line: Bytes, requested: Option<Bytes>) returns (got: Option<Verified>)
      modifies this`failed, pipe
      ensures !old(failed) && !pipe.faulty ==>
                Answered(Outcome(requested, old(pipe.unread)), got, failed, pipe.unread) && pipe.pending == "" &&
                pipe.sent == old(pipe.Written()) + line
      ensures got.Some? ==>
                pipe.pending == "" && pipe.sent == old(pipe.Written()) + line && !failed &&
                Outcome(requested, old(pipe.unread)) == Gave(got.value, pipe.unread)
      ensures old(failed) ==> failed && got.None?
    {
      var sent := WriteAll(pipe, line);
      if !sent { return None; }
      var ok;
      ok, got := Response(requested);
      if !ok { got := None; }
    }

    /**
     A successful read sent one request line, consumed exactly one response, and returned the object
     that response holds. On a sound pipe it fails only when the data does not start with the
     response of an object that answers the request; a report that the object is missing is consumed
     and leaves the reader usable.
     */
    method ReadObject(oid: Bytes) returns (got: Option<Verified>)
      modifies this`failed, pipe
      ensures got.Some? ==>
                IsHex40(oid) && pipe.pending == "" && pipe.sent == old(pipe.Written()) + (oid + "\n") && !failed &&
                Fits(h, max, Some(oid), got.value) && old(pipe.unread) == ObjectResponse(got.value) + pipe.unread
      ensures got.None? && IsHex40(oid) && !pipe.faulty && !old(failed) ==>
                NoAnswer(h, max, Some(oid), old(pipe.unread)) &&
                (failed || old(pipe.unread) == MissingResponse(oid) + pipe.unread)
      ensures old(failed) ==> failed && got.None?
    {
      if !IsHex40(oid) { return None; }
      got := Ask(oid + "\n", Some(oid));
      if got.Some? { GaveExactly(h, max, Some(oid), old(pipe.unread), got.value, pipe.unread); }
      NothingGiven(h, max, Some(oid), old(pipe.unread));
      MissingExactly(h, max, oid, old(pipe.unread), pipe.unread);
    }

    /** The next request of a conversation on a sound pipe. */
    method Continue(oids: seq<Bytes>, i: nat, got: seq<Option<Verified>>) returns (more: seq<Option<Verified>>)
      requires !failed && !pipe.faulty && pipe.pending == "" && i < |oids|
      modifies this`failed, pipe
      ensures |more| == |got| + 1 && pipe.pending == "" && pipe.sent == old(pipe.sent) + (oids[i] + "\n")
      ensures Before(got, Talk(h, max, oids[i..], old(pipe.unread))) ==
              if failed then Lost(more) else Before(more, Talk(h, max, oids[i + 1..], pipe.unread))
    {
      assert pipe.Written() == pipe.sent;
      var next := Ask(oids[i] + "\n", Some(oids[i]));
      more := got + [next];
      TalkStep(h, max, oids, i, old(pipe.unread), got, next, failed, pipe.unread);
    }

    /**
     A conversation on a sound pipe: one request after the other until one is refused. For every way
     the pipe cuts the data up, it gets what the bytes alone give.
     */
    method ReadAll(oids: seq<Bytes>) returns (got: seq<Option<Verified>>)
      requires !failed && !pipe.faulty && pipe.pending == ""
      modifies this`failed, pipe
      ensures Talk(h, max, oids, old(pipe.unread)) == if failed then Lost(got) else Heard(got, pipe.unread)
      ensures |got| <= |oids| && pipe.sent == old(pipe.sent) + Requests(oids[..|got|])
    {
      got := [];
      ghost var goal := Talk(h, max, oids, pipe.unread);
      TalkStarts(h, max, oids, pipe.unread);
      for i := 0 to |oids|
        invariant !failed && pipe.pending == "" && |got| == i
        invariant goal == Before(got, Talk(h, max, oids[i..], pipe.unread))
        invariant pipe.sent == old(pipe.sent) + Requests(oids[..i])
      {
        RequestsGrow(old(pipe.sent), oids, i);
        got := Continue(oids, i, got);
        if failed { return; }
      }
      TalkEnds(h, max, oids, got, pipe.unread);
    }

    /** The target ref's object, whatever its identity, as long as it is a commit. */
    method ReadTarget() returns (got: Option<Verified>)
      modifies this`failed, pipe
      ensures got.Some? ==>
                pipe.pending == "" && pipe.sent == old(pipe.Written()) + (TARGET_REF + "\n") &&
                got.value.kind == "commit" &&
                Fits(h, max, None, got.value) && old(pipe.unread) == ObjectResponse(got.value) + pipe.unread
      ensures got.None? && !pipe.faulty && !old(failed) ==>
                NoAnswer(h, max, None, old(pipe.unread)) ||
                exists v :: Fits(h, max, None, v) && v.kind != "commit" &&
                            old(pipe.unread) == ObjectResponse(v) + pipe.unread
    {
      got := Ask(TARGET_REF + "\n", None);
      if got.Some? { GaveExactly(h, max, None, old(pipe.unread), got.value, pipe.unread); }
      NothingGiven(h, max, None, old(pipe.unread));
      if got.Some? && got.value.kind != "commit" { got := None; }
    }
  }
}
