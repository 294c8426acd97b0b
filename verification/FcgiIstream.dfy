/**
 The request body as FastCGI STDIN records (section 5.3 of the FastCGI
 Specification 1.0), written to a consumer that may accept any part of what it
 is offered.
 */
module FcgiIstream {
  import opened Octets
  import opened FcgiWire
  import opened FcgiParser
  import opened FcgiDecode

  const MAX_CONTENT: nat := 0xffff

  function Contents(rs: seq<Record>): Bytes {
    if rs == [] then [] else rs[0].content + Contents(rs[1..])
  }

  /** One STDIN record of this request. */
  function StdinRecord(id: nat, content: Bytes): (r: Record)
    ensures id < 0x10000 && |content| <= MAX_CONTENT ==> r.Valid()
  {
    Record(STDIN, id, content, [])
  }

  /** The body proper: no record is empty, and none exceeds the 16 bit length field. */
  ghost predicate BodyRecords(id: nat, rs: seq<Record>) {
    && id < 0x10000
    && forall r <- rs :: r == StdinRecord(id, r.content) && 0 < |r.content| <= MAX_CONTENT
  }

  ghost predicate AllValid(rs: seq<Record>) {
    forall r <- rs :: r.Valid()
  }

  lemma BodyValid(id: nat, rs: seq<Record>)
    requires BodyRecords(id, rs)
    ensures AllValid(rs) && AllValid(rs + [StdinRecord(id, [])])
  {
  }

  lemma {:induction false} EncodeSnoc(rs: seq<Record>, r: Record)
    requires AllValid(rs) && r.Valid()
    ensures EncodeAll(rs + [r]) == EncodeAll(rs) + Encode(r)
    ensures Contents(rs + [r]) == Contents(rs) + r.content
  {
    hide Encode;
    if rs == [] {
      assert rs + [r] == [r] && [r][1..] == [];
      assert Encode(r) + [] == Encode(r) && r.content + [] == r.content;
    } else {
      assert (rs + [r])[0] == rs[0] && (rs + [r])[1..] == rs[1..] + [r];
      EncodeSnoc(rs[1..], r);
      assert Encode(rs[0]) + (EncodeAll(rs[1..]) + Encode(r)) == EncodeAll(rs) + Encode(r);
      assert rs[0].content + (Contents(rs[1..]) + r.content) == Contents(rs) + r.content;
    }
  }

  lemma EncodeStdin(id: nat, content: Bytes)
    requires id < 0x10000 && |content| <= MAX_CONTENT
    ensures Encode(StdinRecord(id, content)) == EncodeHeader(STDIN, id, |content|, 0) + content
  {
    assert content + [] == content;
  }

  /** What was written so far, given the records finished and the one in progress. */
  ghost predicate Written(id: nat, rs: seq<Record>, header: Bytes, headerSent: nat, sent: Bytes, missing: nat, output: Bytes)
    requires |header| == HEADER_SIZE && headerSent <= HEADER_SIZE
  {
    && BodyRecords(id, rs)
    && AllValid(rs)
    && if headerSent == HEADER_SIZE && missing == 0 then
         sent == [] && output == EncodeAll(rs)
       else
         && |sent| + missing <= MAX_CONTENT
         && header == EncodeHeader(STDIN, id, |sent| + missing, 0)
         && (headerSent < HEADER_SIZE ==> sent == [])
         && output + header[headerSent..] == EncodeAll(rs) + (header + sent)
  }

  lemma Passed(output: Bytes, header: Bytes, k: nat, n: nat)
    requires k + n <= |header|
    ensures (output + header[k..k + n]) + header[k + n..] == output + header[k..]
  {
    assert header[k..k + n] + header[k + n..] == header[k..];
  }

  lemma WrittenNothing(id: nat, header: Bytes)
    requires id < 0x10000 && |header| == HEADER_SIZE
    ensures Written(id, [], header, HEADER_SIZE, [], 0, [])
    ensures Contents([]) == []
  {
  }

  lemma WrittenHeader(id: nat, rs: seq<Record>, header: Bytes, headerSent: nat, sent: Bytes, missing: nat, output: Bytes, n: nat)
    requires |header| == HEADER_SIZE && headerSent < HEADER_SIZE && headerSent + n <= HEADER_SIZE
    requires Written(id, rs, header, headerSent, sent, missing, output) && missing > 0
    ensures Written(id, rs, header, headerSent + n, sent, missing, output + header[headerSent..headerSent + n])
  {
    hide EncodeAll, EncodeHeader, BodyRecords, AllValid;
    Passed(output, header, headerSent, n);
  }

  /** The current record grows by `d`. */
  lemma WrittenMore(rs: seq<Record>, header: Bytes, sent: Bytes, output: Bytes, d: Bytes)
    requires |header| == HEADER_SIZE && AllValid(rs)
    requires output + header[HEADER_SIZE..] == EncodeAll(rs) + (header + sent)
    ensures output + d == EncodeAll(rs) + (header + (sent + d))
    ensures (output + d) + header[HEADER_SIZE..] == output + d
  {
    hide EncodeAll;
    assert header[HEADER_SIZE..] == [];
    assert output + [] == output;
    assert (EncodeAll(rs) + (header + sent)) + d == EncodeAll(rs) + (header + (sent + d));
  }

  lemma WrittenRecord(id: nat, rs: seq<Record>, header: Bytes, content: Bytes, output: Bytes)
    requires BodyRecords(id, rs) && AllValid(rs) && 0 < |content| <= MAX_CONTENT
    requires header == EncodeHeader(STDIN, id, |content|, 0) && output == EncodeAll(rs) + (header + content)
    ensures AllValid(rs + [StdinRecord(id, content)])
    ensures BodyRecords(id, rs + [StdinRecord(id, content)]) && output == EncodeAll(rs + [StdinRecord(id, content)])
  {
    hide EncodeAll, EncodeHeader, Encode;
    EncodeStdin(id, content);
    EncodeSnoc(rs, StdinRecord(id, content));
  }

  lemma WrittenContent(id: nat, rs: seq<Record>, header: Bytes, sent: Bytes, missing: nat, output: Bytes, d: Bytes)
    requires |header| == HEADER_SIZE && 0 < |d| <= missing
    requires Written(id, rs, header, HEADER_SIZE, sent, missing, output)
    ensures if |d| < missing
            then Written(id, rs, header, HEADER_SIZE, sent + d, missing - |d|, output + d)
            else Written(id, rs + [StdinRecord(id, sent + d)], header, HEADER_SIZE, [], 0, output + d)
  {
    hide EncodeAll, EncodeHeader, BodyRecords, AllValid, StdinRecord;
    WrittenMore(rs, header, sent, output, d);
    if |d| == missing {
      WrittenRecord(id, rs, header, sent + d, output + d);
    }
  }

  lemma WrittenStart(id: nat, rs: seq<Record>, header: Bytes, sent: Bytes, output: Bytes, length: nat)
    requires |header| == HEADER_SIZE && 0 < length <= MAX_CONTENT
    requires Written(id, rs, header, HEADER_SIZE, sent, 0, output)
    ensures Written(id, rs, EncodeHeader(STDIN, id, length, 0), 0, [], length, output)
  {
    hide EncodeAll, EncodeHeader;
    var h := EncodeHeader(STDIN, id, length, 0);
    assert h[0..] == h && h + [] == h;
  }

  /** The whole stream: the body records, then one empty record. */
  ghost predicate Complete(id: nat, body: Bytes, rs: seq<Record>, output: Bytes) {
    && BodyRecords(id, rs)
    && Contents(rs) == body
    && AllValid(rs + [StdinRecord(id, [])])
    && output == EncodeAll(rs + [StdinRecord(id, [])])
  }

  /** After the end of the input only the header of the empty record is missing. */
  ghost predicate Closing(id: nat, body: Bytes, rs: seq<Record>, header: Bytes, headerSent: nat, output: Bytes)
    requires |header| == HEADER_SIZE && headerSent <= HEADER_SIZE
  {
    && BodyRecords(id, rs)
    && AllValid(rs)
    && Contents(rs) == body
    && header == EncodeHeader(STDIN, id, 0, 0)
    && output + header[headerSent..] == EncodeAll(rs) + header
  }

  lemma ClosingStart(id: nat, body: Bytes, rs: seq<Record>, header: Bytes, sent: Bytes, output: Bytes)
    requires |header| == HEADER_SIZE && Written(id, rs, header, HEADER_SIZE, sent, 0, output) && Contents(rs) == body
    ensures Closing(id, body, rs, EncodeHeader(STDIN, id, 0, 0), 0, output)
  {
    hide EncodeAll, EncodeHeader, Contents;
    var h := EncodeHeader(STDIN, id, 0, 0);
    assert h[0..] == h;
  }

  lemma ClosingHeader(id: nat, body: Bytes, rs: seq<Record>, header: Bytes, headerSent: nat, output: Bytes, n: nat)
    requires |header| == HEADER_SIZE && headerSent + n <= HEADER_SIZE
    requires Closing(id, body, rs, header, headerSent, output)
    ensures Closing(id, body, rs, header, headerSent + n, output + header[headerSent..headerSent + n])
  {
    hide EncodeAll, EncodeHeader, Contents, BodyRecords, AllValid;
    Passed(output, header, headerSent, n);
  }

  lemma ClosingDone(id: nat, body: Bytes, rs: seq<Record>, header: Bytes, output: Bytes)
    requires |header| == HEADER_SIZE && Closing(id, body, rs, header, HEADER_SIZE, output)
    ensures Complete(id, body, rs, output)
  {
    hide EncodeAll, EncodeHeader, Contents, Encode;
    assert header[HEADER_SIZE..] == [] && output + [] == output && header + [] == header;
    BodyValid(id, rs);
    EncodeStdin(id, []);
    EncodeSnoc(rs, StdinRecord(id, []));
  }

  datatype ReadAction = BLOCKED | FINISHED | READ_INPUT

  class FcgiIstream {
    const id: nat
    const body: Bytes

    var missing: nat
    var header: Bytes
    var headerSent: nat
    var hasInput: bool
    var finished: bool

    // The consumer's answers to come, unless it takes everything, and what it has taken.
    const greedy: bool
    var sink: seq<nat>
    var output: Bytes

    // How much of the body was consumed, the records written, the part of the current one.
    ghost var consumed: nat
    ghost var records: seq<Record>
    ghost var sent: Bytes

    ghost predicate Valid()
      reads this
    {
      && id < 0x10000
      && |header| == HEADER_SIZE
      && headerSent <= HEADER_SIZE
      && consumed <= |body|
      && if hasInput then
           && !finished
           && Contents(records) + sent == body[..consumed]
           && missing <= |body| - consumed
           && (headerSent < HEADER_SIZE ==> missing > 0)
           && Written(id, records, header, headerSent, sent, missing, output)
         else
           && missing == 0
           && consumed == |body|
           && (finished ==> headerSent == HEADER_SIZE)
           && Closing(id, body, records, header, headerSent, output)
    }

    /** What the source of the body has left. */
    ghost function Left(): Bytes
      requires Valid()
      reads this
    {
      body[consumed..]
    }

    constructor (id: nat, body: Bytes, greedy: bool, sink: seq<nat>)
      requires id < 0x10000
      ensures Valid() && this.body == body && this.id == id && this.greedy == greedy && hasInput && output == [] && Left() == body
    {
      hide Written, Closing, Contents, EncodeHeader;
      this.id, this.body, this.greedy, this.sink := id, body, greedy, sink;
      missing, headerSent, header := 0, HEADER_SIZE, EncodeHeader(STDIN, id, 0, 0);
      hasInput, finished, output := true, false, [];
      consumed, records, sent := 0, [], [];
      WrittenNothing(id, EncodeHeader(STDIN, id, 0, 0));
      assert body[..0] == [] && body[0..] == body;
    }

    /** The consumer takes what it likes. */
    method InvokeData(d: Bytes) returns (n: nat)
      modifies this`sink, this`output
      ensures n <= |d| && output == old(output) + d[..n]
      ensures greedy ==> n == |d|
    {
      n := if greedy then |d| else if sink == [] then 0 else Min(sink[0], |d|);
      sink := if sink == [] then [] else sink[1..];
      output := output + d[..n];
    }

    method WriteHeader() returns (done: bool)
      requires Valid()
      modifies this`sink, this`output, this`headerSent
      ensures Valid()
      ensures done <==> headerSent == HEADER_SIZE
      ensures greedy ==> done
    {
      hide EncodeAll, EncodeHeader, Contents, BodyRecords, AllValid;
      var length := HEADER_SIZE - headerSent;
      if length == 0 {
        return true;
      }
      ghost var before := output;
      var n := InvokeData(header[headerSent..]);
      assert header[headerSent..][..n] == header[headerSent..headerSent + n];
      if hasInput {
        WrittenHeader(id, records, header, headerSent, sent, missing, before, n);
      } else {
        ClosingHeader(id, body, records, header, headerSent, before, n);
      }
      headerSent := headerSent + n;
      return n == length;
    }

    method StartRecord(length: nat)
      requires Valid() && hasInput && missing == 0 && headerSent == HEADER_SIZE
      requires 0 < length <= |body| - consumed
      modifies this`missing, this`header, this`headerSent
      ensures Valid()
      ensures missing == Min(length, MAX_CONTENT)
    {
      hide EncodeAll, EncodeHeader, Contents, BodyRecords, AllValid;
      var content := Min(length, MAX_CONTENT);
      WrittenStart(id, records, header, sent, output, content);
      header := EncodeHeader(STDIN, id, content, 0);
      headerSent := 0;
      missing := content;
    }

    /** Offers the next part of the current record. */
    method WriteContent(d: Bytes) returns (n: nat)
      requires Valid() && hasInput && headerSent == HEADER_SIZE
      requires 0 < |d| <= missing && d <= Left()
      modifies this`missing, this`sink, this`output, this`consumed, this`records, this`sent
      ensures Valid()
      ensures n <= |d| && missing == old(missing) - n && consumed == old(consumed) + n
      ensures greedy ==> n == |d|
    {
      hide EncodeAll, EncodeHeader, Contents, BodyRecords, AllValid;
      ghost var before := output;
      n := InvokeData(d);
      if n > 0 {
        ghost var taken := d[..n];
        WrittenContent(id, records, header, sent, missing, before, taken);
        Advance(body, consumed, n, d);
        assert (Contents(records) + sent) + taken == Contents(records) + (sent + taken);
        missing := missing - n;
        consumed := consumed + n;
        if missing == 0 {
          Finished(id, records, sent + taken);
          records, sent := records + [StdinRecord(id, sent + taken)], [];
          assert Contents(records) + [] == Contents(records);
        } else {
          sent := sent + taken;
        }
      } else {
        assert before + d[..0] == before;
      }
    }

    /** Turns a block of the body into records, as far as the consumer lets it; all of it, if it takes everything. */
    method OnData(src: Bytes) returns (total: nat)
      requires Valid() && hasInput && src != [] && src <= Left()
      modifies this`missing, this`header, this`headerSent, this`sink, this`output, this`consumed, this`records, this`sent
      ensures Valid()
      ensures total <= |src| && consumed == old(consumed) + total
      ensures greedy ==> total == |src|
    {
      ghost var start := consumed;
      assert start <= |body| && src <= body[start..];
      hide Valid;
      total := 0;
      while true
        invariant Valid() && hasInput
        invariant total <= |src| && consumed == start + total <= |body|
        invariant missing == 0 ==> total < |src| || headerSent == HEADER_SIZE
        invariant missing > 0 ==> total < |src|
        decreases |src| - total, if missing == 0 then 1 else 0
      {
        var done := WriteHeader();
        if !done {
          return;
        }
        Rest(body, start, src, total);
        if missing > 0 {
          var rest := Min(|src| - total, missing);
          Part(src, total, rest, Left());
          var n := WriteContent(src[total..total + rest]);
          if n == 0 {
            return;
          }
          total := total + n;
          if missing > 0 {
            return;
          }
        }
        var rest := |src| - total;
        if rest == 0 {
          return;
        }
        StartRecord(rest);
      }
    }

    /** The source has ended: the assertions on the way hold because no record promised too much. */
    method OnEof()
      requires Valid() && hasInput && Left() == []
      modifies this
      ensures Valid() && !hasInput
      ensures finished ==> Complete(id, body, records, output)
      ensures greedy ==> finished
    {
      hide EncodeAll, EncodeHeader, Contents, BodyRecords, AllValid;
      assert missing == 0 && headerSent == HEADER_SIZE;
      assert body[..consumed] == body && Contents(records) + [] == Contents(records);
      ClosingStart(id, body, records, header, sent, output);
      hasInput := false;
      header := EncodeHeader(STDIN, id, 0, 0);
      headerSent := 0;
      var done := WriteHeader();
      if done {
        finished := true;
        ClosingDone(id, body, records, header, output);
      }
    }

    /** `available` is what the source promises to have left at least, or negative. */
    method Read(available: int) returns (action: ReadAction)
      requires Valid() && !finished && (hasInput ==> available <= |Left()|)
      modifies this
      ensures Valid() && consumed == old(consumed)
      ensures action == FINISHED <==> finished
      ensures finished ==> Complete(id, body, records, output)
      ensures action == READ_INPUT ==> hasInput
      ensures greedy ==> action != BLOCKED
    {
      hide EncodeAll, EncodeHeader, Contents, BodyRecords, AllValid;
      var done := WriteHeader();
      if !done {
        return BLOCKED;
      }
      if !hasInput {
        finished := true;
        ClosingDone(id, body, records, header, output);
        return FINISHED;
      }
      if missing == 0 && available > 0 {
        StartRecord(available);
        done := WriteHeader();
        if !done {
          return BLOCKED;
        }
      }
      return READ_INPUT;
    }
  }

  lemma Advance(body: Bytes, consumed: nat, n: nat, d: Bytes)
    requires consumed <= |body| && d <= body[consumed..] && n <= |d|
    ensures body[..consumed + n] == body[..consumed] + d[..n]
  {
  }

  lemma Finished(id: nat, rs: seq<Record>, content: Bytes)
    requires BodyRecords(id, rs) && AllValid(rs) && |content| <= MAX_CONTENT
    ensures Contents(rs + [StdinRecord(id, content)]) == Contents(rs) + content
  {
    EncodeSnoc(rs, StdinRecord(id, content));
  }

  lemma Rest(body: Bytes, start: nat, src: Bytes, total: nat)
    requires start <= |body| && src <= body[start..] && total <= |src|
    ensures src[total..] <= body[start + total..]
  {
  }

  lemma Part(src: Bytes, total: nat, n: nat, left: Bytes)
    requires total + n <= |src| && src[total..] <= left
    ensures src[total..total + n] <= left
  {
  }

  // Decoding.

  /** The payload of all records. */
  function PayloadOf(events: seq<Event>): Bytes {
    if events == [] then [] else
    (if events[0].Data? then [events[0].b] else []) + PayloadOf(events[1..])
  }

  lemma {:induction false} PayloadConcat(a: seq<Event>, b: seq<Event>)
    ensures PayloadOf(a + b) == PayloadOf(a) + PayloadOf(b)
  {
    if a == [] {
      assert a + b == b;
    } else {
      assert (a + b)[0] == a[0] && (a + b)[1..] == a[1..] + b;
      PayloadConcat(a[1..], b);
    }
  }

  lemma {:induction false} PayloadOfData(d: Bytes)
    ensures PayloadOf(DataEvents(d)) == d
  {
    if d != [] {
      PayloadOfData(d[1..]);
      assert DataEvents(d)[1..] == DataEvents(d[1..]);
    }
  }

  lemma PayloadOfOne(e: Event)
    requires !e.Data?
    ensures PayloadOf([e]) == []
  {
    assert [e][1..] == [];
  }

  lemma PayloadOfRecord(r: Record)
    ensures PayloadOf(RecordEvents(r)) == r.content
  {
    hide PayloadOf, DataEvents;
    var open := [Open(r.rtype, r.id)];
    PayloadConcat(open, DataEvents(r.content));
    PayloadConcat(open + DataEvents(r.content), [Close]);
    PayloadOfOne(open[0]);
    PayloadOfOne(Close);
    PayloadOfData(r.content);
    assert [] + r.content + [] == r.content;
  }

  lemma {:induction false} PayloadOfRecords(rs: seq<Record>)
    ensures PayloadOf(AllRecordEvents(rs)) == Contents(rs)
  {
    hide RecordEvents;
    if rs != [] {
      PayloadConcat(RecordEvents(rs[0]), AllRecordEvents(rs[1..]));
      PayloadOfRecord(rs[0]);
      PayloadOfRecords(rs[1..]);
    }
  }

  /**
   The round trip: whoever parses a complete stream, in pieces of any size and
   with any back-pressure, sees exactly the body.
   */
  lemma RoundTrip<S(!new)>(id: nat, body: Bytes, rs: seq<Record>, output: Bytes, s: S, calls: seq<Call<S>>)
    requires Complete(id, body, rs, output)
    requires forall c <- calls :: Sane(c.handler) && NeverSkips(c.handler)
    requires RunCalls(INITIAL, [], s, calls).used == output
    ensures PayloadOf(SeenAll(RunCalls(INITIAL, [], s, calls).trace)) == body
  {
    hide RunCalls, EncodeAll, SeenAll, AllRecordEvents, PayloadOf, Contents, Sane, NeverSkips, Parser.EndPending;
    var all := rs + [StdinRecord(id, [])];
    var r := RunCalls(INITIAL, [], s, calls);
    RecordsAreSeen(s, calls, all);
    PayloadOfRecords(all);
    BodyValid(id, rs);
    EncodeSnoc(rs, StdinRecord(id, []));
    assert Contents(rs) + [] == Contents(rs);
    PayloadConcat(SeenAll(r.trace), CloseIf(r.parser.EndPending()));
    PayloadOfClose(r.parser.EndPending());
    assert PayloadOf(SeenAll(r.trace)) + [] == PayloadOf(SeenAll(r.trace));
  }

  lemma PayloadOfClose(b: bool)
    ensures PayloadOf(CloseIf(b)) == []
  {
    if b {
      PayloadOfOne(Close);
    }
  }
}
