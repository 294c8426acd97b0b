/**
 Inputs and runs on which the client does not do what one would expect.
 */
module FcgiWitness {
  import opened Octets
  import opened FcgiWire
  import opened FcgiParser
  import opened FcgiDecode
  import opened FcgiView
  import opened FcgiClient
  import opened FcgiBuckets
  import opened FcgiConsume
  import opened FcgiLookahead
  import opened FcgiBody

  /** The header of an empty END_REQUEST record of this request. */
  predicate EndHeader(id: nat, h: Bytes) {
    && |h| == HEADER_SIZE
    && h[1] == END_REQUEST
    && Be16(h[2], h[3]) == id
    && Be16(h[4], h[5]) + h[6] == 0
  }

  lemma EndHeaderEnds(id: nat, w: Wire, v: View, h: Bytes)
    requires EndHeader(id, h) && Between(w) && w.Aligned() && !v.done
    ensures EndsAt(id, w, v, h, HEADER_SIZE)
  {
    hide Total, NotDoneBefore, Be16;
    TotalHeader(id, w, v, h);
    HeaderNotDone(id, w, v, h);
    assert h[..HEADER_SIZE] == h;
  }

  lemma EndsAtPrefix(id: nat, w: Wire, v: View, src: Bytes, more: Bytes, n: nat)
    requires EndsAt(id, w, v, src, n)
    ensures EndsAt(id, w, v, src + more, n)
  {
    hide Total;
    assert forall k: nat :: k <= n ==> (src + more)[..k] == src[..k];
  }

  lemma EndsAtMeansDone(id: nat, w: Wire, v: View, src: Bytes, n: nat)
    requires EndsAt(id, w, v, src, n)
    ensures Total(id, w, v, src).done
  {
    hide Total, WireAfter, NotDoneBefore;
    TotalSplit(id, w, v, src, n);
    TotalGrows(id, WireAfter(w, src[..n]), Total(id, w, v, src[..n]), src[n..]);
  }

  /** Whatever follows the END_REQUEST record, the socket is offered for reuse. */
  lemma ReuseWithLeftover(id: nat, h: Bytes, more: Bytes, p: Parser, w: Wire, v: View, c: Client)
    requires EndHeader(id, h) && more != [] && Sane(FillHandler(id))
    requires p.inFrame && w == Inside(p.remaining, p.skip) && v == FirstView(p.remaining + p.skip) && p.EndPending()
    requires c == FirstClient(h + more, -1, c.sink)
    ensures var o := Drive(p, c.input, FillHandler(id), StartFill(c));
            o.state.release && o.state.reuse && c.input[o.used..] != []
  {
    hide Drive, Sane, FillHandler, StartFill, Books, Total, WireAfter, EndsAt, FirstClient;
    var src := h + more;
    BooksBegin(id, -1, p, w, v, c);
    EndHeaderEnds(id, w, v, h);
    EndsAtPrefix(id, w, v, h, more, HEADER_SIZE);
    EndsAtMeansDone(id, w, v, src, HEADER_SIZE);
    FillReuse(id, -1, Total(id, w, v, src), p, w, v, c, src);
    if EndsAt(id, w, v, src, |src|) {
      EndsAtOnce(id, w, v, src, |src|, HEADER_SIZE);
    }
  }

  /** The header of an END_REQUEST record of this request, with something left to follow. */
  predicate LongEndHeader(id: nat, h: Bytes, left: nat) {
    && |h| == HEADER_SIZE
    && h[1] == END_REQUEST
    && Be16(h[2], h[3]) == id
    && Be16(h[4], h[5]) + h[6] == left > 0
  }

  lemma BlindEnds(id: nat, w: Wire, v: View, pad: Bytes, h: Bytes)
    requires EndHeader(id, h) && w.Aligned() && 0 < w.content + w.padding == |pad| && v.kind.Ending? && !v.done
    ensures EndsAt(id, w, Missed(v), pad + h, |pad| + HEADER_SIZE)
  {
    hide Total, WireAfter, NotDoneBefore;
    var src := pad + h;
    assert src[..|pad|] == pad && src[|pad|..] == h;
    WireRest(w.content, w.padding, pad, w.content);
    TotalDropped(id, w, Missed(v), pad);
    RestNotDone(id, w, Missed(v), src, |pad|);
    EndHeaderEnds(id, WireAfter(w, pad), Total(id, w, Missed(v), pad), h);
    NotDoneChain(id, w, Missed(v), src, |pad|, HEADER_SIZE);
    PlaceChain(id, w, Missed(v), src, |pad|, HEADER_SIZE);
  }

  lemma DriveHalts<S(!new)>(p: Parser, src: Bytes, h: Handler<S>, s: S, r: StepResult<S>)
    requires Sane(h) && p.Valid() && r == Step(p, src, h, s) && r.halt.Some?
    ensures var o := Drive(p, src, h, s); o.used == r.used && o.state == r.state && o.parser == r.parser && o.result == r.halt.value
  {
    hide Step;
  }

  lemma DriveGoesOn<S(!new)>(p: Parser, src: Bytes, h: Handler<S>, s: S, r: StepResult<S>)
    requires Sane(h) && p.Valid() && r == Step(p, src, h, s) && r.halt.None?
    ensures var o, o1 := Drive(p, src, h, s), Drive(r.parser, src[r.used..], h, r.state);
      o.used == r.used + o1.used && o.state == o1.state && o.parser == o1.parser && o.result == o1.result
  {
    hide Step;
  }

  lemma SkipsAll(id: nat, p: Parser, c: Client, src: Bytes)
    requires p.Valid() && p.remaining == 0 < p.skip <= |src| && Sane(DirectHandler(id))
    ensures var r := Step(p, src, DirectHandler(id), c);
      r.halt.None? && r.used == p.skip && r.parser == p.(skip := 0) && r.state == Dispose(c, p.skip)
  {
    hide DirectPayload, DirectHeader, DirectEnd, Dispose;
  }

  lemma EndCloses(id: nat, p: Parser, c: Client, src: Bytes)
    requires p.remaining + p.skip == 0 && p.inFrame && c.endRequest && Sane(DirectHandler(id))
    ensures var r := Step(p, src, DirectHandler(id), c); r.halt == Some(CLOSED) && r.used == 0 && r.state.status.Eof?
  {
    hide DirectPayload, DirectHeader;
  }

  /** The client ends with the record, whatever follows it. */
  lemma DirectRest(id: nat, p: Parser, c: Client, src: Bytes)
    requires p.Valid() && p.remaining == 0 < p.skip <= |src| && c.endRequest && Sane(DirectHandler(id))
    ensures var o := Drive(p, src, DirectHandler(id), c); o.used == p.skip && o.state.status.Eof?
  {
    hide Drive, Step, Sane, DirectHandler;
    var h := DirectHandler(id);
    var r := Step(p, src, h, c);
    SkipsAll(id, p, c, src);
    DriveGoesOn(p, src, h, c, r);
    EndCloses(id, r.parser, r.state, src[r.used..]);
    DriveHalts(r.parser, src[r.used..], h, r.state, Step(r.parser, src[r.used..], h, r.state));
  }

  /**
   The rest of an END_REQUEST record whose header was fed in an earlier call, then
   another END_REQUEST record: the look-ahead, blind to the first, reports the
   second, but the client ends with the first.
   */
  lemma BlindReport(id: nat, declared: int, t: View, p: Parser, w: Wire, v: View, c: Client, pad: Bytes, h: Bytes)
    requires Books(id, declared, t, p, w, v, c, pad + h) && p.Valid() && c.endRequest
    requires EndHeader(id, h) && 0 < p.remaining + p.skip == |pad|
    ensures Lookahead(id, p, c).endOffset == |pad + h|
    ensures Direct(id, p, c).used == |pad| && Direct(id, p, c).state.status.Eof?
  {
    hide Drive, Sane, DirectHandler, AnalysisHandler, Total, AnalysisLedger, AnalysisParser, Agrees, NotDoneBefore;
    var src, a0, v0 := pad + h, StartAnalysis(), Missed(v);
    HandlersSane(id);
    AnalysisParserValid(p, c.stderr);
    TrackFacts(p, w, v);
    BlindBegins(id, declared, t, p, w, v, c, src, a0);
    AnalyseBuffer(id, Total(id, w, v0, src), AnalysisParser(p, c.stderr), w, v0, src, a0);
    BlindEnds(id, w, v, pad, h);
    EndsAtMeansDone(id, w, v0, src, |src|);
    EndsAtOnce(id, w, v0, src, |src|, Lookahead(id, p, c).endOffset);
    DirectRest(id, p, c, src);
  }

  lemma LongHeaderMeans(id: nat, w: Wire, v: View, h: Bytes, left: nat)
    requires LongEndHeader(id, h, left) && Between(w) && w.Aligned() && !v.done
    ensures !Total(id, w, v, h).done
  {
    hide Total;
    TotalHeader(id, w, v, h);
  }

  lemma EndContinues(id: nat, p: Parser, c: Client, src: Bytes)
    requires p.EndPending() && !c.endRequest && Sane(DirectHandler(id))
    ensures var r := Step(p, src, DirectHandler(id), c);
      r.halt.None? && r.used == 0 && r.parser == p.(inFrame := false) && r.state == c
  {
    hide DirectPayload, DirectHeader;
  }

  lemma EndHeaderOpens(id: nat, p: Parser, c: Client, h: Bytes, left: nat)
    requires !p.inFrame && p.remaining + p.skip == 0 && LongEndHeader(id, h, left) && Sane(DirectHandler(id)) && c.available < 0
    ensures var r := Step(p, h, DirectHandler(id), c);
      r.halt.None? && r.used == HEADER_SIZE && r.parser.inFrame && r.parser.remaining == 0 && r.parser.skip == left && r.state.endRequest
  {
    hide DirectPayload, DirectEnd;
  }

  lemma SkipWaits(id: nat, p: Parser, c: Client)
    requires p.Valid() && p.remaining == 0 < p.skip && Sane(DirectHandler(id))
    ensures var r := Step(p, [], DirectHandler(id), c);
      r.halt == Some(MORE) && r.used == 0 && r.parser == p && r.state.endRequest == c.endRequest
  {
    hide DirectPayload, DirectHeader, DirectEnd;
  }

  /** Feeding that header alone: the client knows that the end is coming, and waits for the rest of the record. */
  lemma LongHeaderFed(id: nat, p: Parser, c: Client, h: Bytes, left: nat)
    requires p.EndPending() && p.Valid() && LongEndHeader(id, h, left) && !c.endRequest && c.available < 0 && c.input == h
    ensures var o := Direct(id, p, c);
      && o.used == HEADER_SIZE && o.result == MORE && o.state.endRequest
      && o.parser.remaining == 0 && o.parser.skip == left
  {
    hide Drive, Step, Sane, DirectHandler, LongEndHeader;
    HandlersSane(id);
    var d := DirectHandler(id);
    EndContinues(id, p, c, h);
    var r := Step(p, h, d, c);
    DriveGoesOn(p, h, d, c, r);
    assert h[0..] == h;
    LongHeaderSize(id, h, left);
    EndHeaderOpens(id, r.parser, c, h, left);
    var q := Step(r.parser, h, d, c);
    DriveGoesOn(r.parser, h, d, c, q);
    assert h[HEADER_SIZE..] == [];
    SkipWaits(id, q.parser, q.state);
    DriveHalts(q.parser, [], d, q.state, Step(q.parser, [], d, q.state));
  }

  lemma LongHeaderSize(id: nat, h: Bytes, left: nat)
    requires LongEndHeader(id, h, left)
    ensures |h| == HEADER_SIZE && left > 0
  {
  }

  lemma FirstStart(input: Bytes, declared: int, sink: Sink, left: nat)
    ensures var c := FirstClient(input, declared, sink); !c.endRequest && c.available == declared && !FirstView(left).done
  {
  }

  /**
   A run of the client in which the direct path offers the socket for reuse although
   bytes are left over: the END_REQUEST record arrives in two parts, and another one
   follows it.
   */
  method BlindRun(id: nat, first: Bytes, pad: Bytes, second: Bytes) returns (body: ResponseBody)
    requires LongEndHeader(id, first, |pad|) && EndHeader(id, second)
    ensures body.c.status.Eof? && body.released && body.reuse && body.c.input == second && second != []
  {
    hide Books, Finished, BadLength, Lookahead, Direct, EndsAt, Total, FirstClient, FirstView, LongEndHeader, EndHeader;
    LongHeaderSize(id, first, |pad|);
    EndHeaderSize(id, second);
    body := new ResponseBody(id, -1, 0, 0, first);
    FirstStart(first, -1, Greedy, 0);
    LongHeaderMeans(id, body.wire, body.view, first, |pad|);
    LongHeaderFed(id, body.parser.Value(), body.c, first, |pad|);
    assert body.c.(sink := Greedy) == body.c;
    var _ := body.OnBufferedData(Greedy);
    assert first[HEADER_SIZE..] == [] && [] + (pad + second) == pad + second;
    body.Receive(pad + second);
    ghost var p, c := body.parser.Value(), body.c;
    BooksValid(id, -1, body.meaning, p, body.wire, body.view, c, c.input);
    BlindReport(id, -1, body.meaning, p, body.wire, body.view, c, pad, second);
    BooksSink(id, -1, body.meaning, p, body.wire, body.view, c, c.input, Greedy);
    BlindReport(id, -1, body.meaning, p, body.wire, body.view, c.(sink := Greedy), pad, second);
    assert (pad + second)[|pad|..] == second;
    var _ := body.OnBufferedData(Greedy);
  }

  lemma EndHeaderSize(id: nat, h: Bytes)
    requires EndHeader(id, h)
    ensures |h| == HEADER_SIZE
  {
  }

  // Late STDERR payload

  /** The header of a STDERR record of this request with one byte. */
  predicate ErrHeader(id: nat, h: Bytes) {
    && |h| == HEADER_SIZE
    && h[1] == STDERR
    && Be16(h[2], h[3]) == id
    && Be16(h[4], h[5]) == 1
    && h[6] == 0
  }

  lemma LateStderrMeans(id: nat, w: Wire, v: View, x: Byte, end: Bytes, err: Bytes, y: Byte)
    requires EndHeader(id, end) && ErrHeader(id, err) && w == Inside(1, 0) && v == FirstView(1)
    ensures var t := Total(id, w, v, ([x] + end) + (err + [y]));
      t.out == [x] && t.err == [] && t.done && t.late == LateErr && t.kind.Idle?
  {
    hide Total, WireAfter, Be16;
    var w1, v1 := WireAfter(w, [x]), Total(id, w, v, [x]);
    WireContent(1, 0, [x]);
    TotalPayload(id, w, v, [x]);
    var w2, v2 := WireAfter(w1, end), Total(id, w1, v1, end);
    WireHeader(w1, end);
    TotalHeader(id, w1, v1, end);
    var w3, v3 := WireAfter(w2, err), Total(id, w2, v2, err);
    WireHeader(w2, err);
    TotalHeader(id, w2, v2, err);
    TotalPayload(id, w3, v3, [y]);
    TotalConcat(id, w, v, [x], end);
    TotalConcat(id, w2, v2, err, [y]);
    WireConcat(w, [x], end);
    TotalConcat(id, w, v, [x] + end, err + [y]);
  }

  /**
   One byte of STDOUT payload, an empty END_REQUEST record, one byte of STDERR payload: after a
   fill, consuming the one byte runs into the assertion that all STDERR payload was forwarded.
   */
  lemma LateStderrFails(id: nat, x: Byte, end: Bytes, err: Bytes, y: Byte, p: Parser, w: Wire, v: View, c: Client)
    requires EndHeader(id, end) && ErrHeader(id, err) && Sane(FillHandler(id)) && Sane(ConsumeHandler(id))
    requires p.inFrame && p.remaining == 1 && p.skip == 0 && w == Inside(1, 0) && v == FirstView(1)
    requires c == FirstClient(([x] + end) + (err + [y]), -1, c.sink)
    ensures var f := Drive(p, c.input, FillHandler(id), StartFill(c));
      && f.state.list == [x] && f.state.release
      && !Drive(p, c.input, ConsumeHandler(id), StartConsume(f.state.client, 1, true)).state.asserted
  {
    hide Drive, Sane, FillHandler, ConsumeHandler, StartFill, StartConsume, Position, Ledger, Total, WireAfter,
         FirstClient, EndHeader, ErrHeader, FirstView;
    var src := ([x] + end) + (err + [y]);
    var t := Total(id, w, v, src);
    BooksBegin(id, -1, p, w, v, c);
    LateStderrMeans(id, w, v, x, end, err, y);
    FillYields(id, -1, t, p, w, v, c, src);
    var f := Drive(p, src, FillHandler(id), StartFill(c));
    FirstViewIs(1);
    FirstClientIs(src, -1, c.sink);
    assert [] + f.state.list == f.state.list;
    ConsumeTakes(id, -1, t, 1, p, w, v, f.state.client, src, true);
  }

  lemma FirstViewIs(left: nat)
    ensures FirstView(left).out == []
  {
  }

  lemma FirstClientIs(input: Bytes, declared: int, sink: Sink)
    ensures !FirstClient(input, declared, sink).endRequest
  {
  }
}
