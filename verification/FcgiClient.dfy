/**
 The response side of the FastCGI client once the headers were submitted: its
 state, the books it has to keep, and the direct feed path.
 */
module FcgiClient {
  import opened Octets
  import opened FcgiWire
  import opened FcgiParser
  import opened FcgiDecode
  import opened FcgiView

  /** One answer of the body consumer: take up to `n` bytes, or close the client. */
  datatype Answer = Take(n: nat) | Hangup

  /** A consumer that always takes everything, or one that follows a script and then blocks. */
  datatype Sink = Greedy | Script(answers: seq<Answer>) {
    function Next(): Answer {
      if Greedy? || answers == [] then Take(0) else answers[0]
    }

    function Rest(): Sink {
      if Greedy? || answers == [] then this else Script(answers[1..])
    }

    function Accepts(size: nat): (n: nat)
      ensures n <= size
    {
      if Greedy? then size else match Next() case Take(n) => Min(n, size) case Hangup => 0
    }

    predicate Closes() {
      Script? && Next().Hangup?
    }
  }

  datatype Status = Active | Eof | Excess | Premature | Aborted

  /** `available` is negative while the length of the body is unknown. */
  datatype Client = Client(
    input: Bytes,
    available: int,
    stderr: bool,
    endRequest: bool,
    skipStderr: nat,
    delivered: Bytes,
    forwarded: Bytes,
    sink: Sink,
    status: Status)

  function Drop(s: Bytes, n: nat): Bytes {
    if n <= |s| then s[n..] else []
  }

  function Dispose(c: Client, n: nat): Client {
    c.(input := Drop(c.input, n))
  }

  function HandleEnd(c: Client): Reply<Client> {
    if c.available > 0 then
      Reply(Closed, c.(endRequest := true, status := Premature))
    else
      Reply(Skip, c.(endRequest := true, available := 0))
  }

  function DirectHeader(id: nat, c: Client, rtype: nat, rid: nat): (r: Reply<Client>)
    ensures r.state.input == c.input && r.state.sink == c.sink && (c.status.Active? ==> !r.state.status.Eof?)
  {
    if rid != id then Reply(Skip, c)
    else if rtype == STDOUT then Reply(Continue, c.(stderr := false))
    else if rtype == STDERR then Reply(Continue, c.(stderr := true))
    else if rtype == END_REQUEST then HandleEnd(c)
    else Reply(Skip, c)
  }

  /** Forward what was not forwarded before. */
  function ForwardStderr(c: Client, d: Bytes): Client {
    if |d| > c.skipStderr then
      c.(forwarded := c.forwarded + d[c.skipStderr..], skipStderr := 0)
    else
      c.(skipStderr := c.skipStderr - |d|)
  }

  function InvokeData(c: Client, d: Bytes): PayloadReply<Client> {
    var n := c.sink.Accepts(|d|);
    if c.sink.Closes() then
      PayloadReply(Closed, 0, c.(status := Aborted))
    else
      PayloadReply(Continue, n,
                   c.(sink := c.sink.Rest(), delivered := c.delivered + d[..n],
                      available := if c.available >= 0 then c.available - n else c.available))
  }

  function DirectPayload(c: Client, d: Bytes): (r: PayloadReply<Client>)
    ensures r.taken <= |d| && (r.result.Continue? || (r.result.Closed? && r.taken == 0))
    ensures r.state.input == c.input
    ensures c.sink.Greedy? ==> r.state.sink.Greedy? && (r.result.Continue? ==> r.taken == |d|)
    ensures c.status.Active? ==> !r.state.status.Eof?
  {
    if c.stderr then
      PayloadReply(Continue, |d|, ForwardStderr(c, d))
    else if 0 <= c.available < |d| then
      PayloadReply(Closed, 0, c.(status := Excess))
    else
      InvokeData(c, d)
  }

  function DirectEnd(c: Client): (r: Reply<Client>)
    ensures r.state.input == c.input && r.state.sink == c.sink
    ensures r.result.Continue? || r.result.Closed?
    ensures c.status.Active? && r.state.status.Eof? ==> c.endRequest
  {
    if c.endRequest then Reply(Closed, c.(status := Eof)) else Reply(Continue, c)
  }

  function DirectHandler(id: nat): Handler<Client> {
    Handler((c, t, i) => DirectHeader(id, c, t, i),
            (c, d) => DirectPayload(c, d),
            c => DirectEnd(c),
            (c, n) => Dispose(c, n))
  }

  lemma DirectFits(id: nat)
    ensures Fits(DirectHandler(id), id)
  {
  }

  /** The END_REQUEST header of this request was seen: no payload can follow. */
  ghost predicate Frozen(t: View) {
    t.done || t.kind.Ending?
  }

  /** STDERR payload is never passed over either, and the flag says which stream it is. */
  ghost predicate Streams(p: Parser, w: Wire, v: View, stderr: bool) {
    && (p.remaining == 0 && v.kind.Err? ==> w.content == 0)
    && (p.remaining > 0 ==> (v.kind.Err? <==> stderr))
  }

  /** The end of the END_REQUEST record is announced as soon as it is reached. */
  ghost predicate Phase(p: Parser, v: View, endRequest: bool) {
    if p.EndPending() then v.done == endRequest else !v.done && (v.kind.Ending? <==> endRequest)
  }

  /** `forwarded` is a prefix of the STDERR stream that is `ahead` bytes ahead of `err`. */
  ghost predicate Forwarded(t: View, err: Bytes, forwarded: Bytes, ahead: nat) {
    forwarded <= t.err && |forwarded| == |err| + ahead
  }

  /** What remains of the declared length, or of the body once its end is known. */
  ghost predicate Length(declared: int, t: View, available: int, delivered: Bytes) {
    && (declared >= 0 ==> available >= 0 && available + |delivered| == declared)
    && (declared < 0 && available >= 0 ==> Frozen(t) && available + |delivered| == |t.out|)
  }

  /** Where the parser stands in the received bytes; `t` is their total meaning. */
  ghost predicate Position(id: nat, t: View, p: Parser, w: Wire, v: View, src: Bytes) {
    Track(p, w, v) && Total(id, w, v, src) == t
  }

  /** The state of the client agrees with that position. */
  ghost predicate Ledger(declared: int, t: View, p: Parser, w: Wire, v: View, c: Client) {
    && c.status.Active?
    && v.out == c.delivered
    && v.late == NoLate
    && Streams(p, w, v, c.stderr)
    && Phase(p, v, c.endRequest)
    && Forwarded(t, v.err, c.forwarded, c.skipStderr)
    && Length(declared, t, c.available, c.delivered)
    && (c.endRequest ==> c.available == 0)
  }

  ghost predicate Books(id: nat, declared: int, t: View, p: Parser, w: Wire, v: View, c: Client, src: Bytes) {
    c.input == src && Position(id, t, p, w, v, src) && Ledger(declared, t, p, w, v, c)
  }

  /** How the client ended, and what that says about the response. */
  ghost predicate Finished(declared: int, t: View, c: Client) {
    && c.delivered <= t.out
    && c.forwarded <= t.err
    && match c.status
       case Active => false
       case Eof => t.done && c.delivered == t.out && c.forwarded == t.err && (declared >= 0 ==> |t.out| == declared)
       case Excess => 0 <= declared < |t.out|
       case Premature => Frozen(t) && |t.out| < declared
       case Aborted => c.sink.Script?
  }

  lemma ForwardBytes(all: Bytes, err: Bytes, forwarded: Bytes, ahead: nat, d: Bytes)
    requires forwarded <= all && |forwarded| == |err| + ahead && err + d <= all && ahead <= |d|
    ensures forwarded + d[ahead..] <= all
  {
    var k, n := |err| + ahead, |err| + |d|;
    assert d == (err + d)[|err|..] == all[|err|..n];
    assert forwarded == all[..k];
    assert d[ahead..] == all[k..n];
    assert all[..k] + all[k..n] == all[..n];
  }

  lemma ForwardMore(t: View, err: Bytes, c: Client, d: Bytes)
    requires Forwarded(t, err, c.forwarded, c.skipStderr) && err + d <= t.err
    ensures var c1 := ForwardStderr(c, d); Forwarded(t, err + d, c1.forwarded, c1.skipStderr)
  {
    if |d| > c.skipStderr {
      ForwardBytes(t.err, err, c.forwarded, c.skipStderr, d);
    }
  }

  /** Offered payload is part of the total. */
  lemma OfferedCounts(id: nat, w: Wire, v: View, src: Bytes, n: nat, t: View)
    requires w.Aligned() && n <= |src| && n <= w.content
    requires Total(id, w, v, src) == t
    ensures Extends(SeeData(v, src[..n]), t)
  {
    hide Total, WireAfter, SeeData;
    TotalSplit(id, w, v, src, n);
    TotalPayload(id, w, v, src[..n]);
    TotalGrows(id, WireAfter(w, src[..n]), Total(id, w, v, src[..n]), src[n..]);
  }

  /** Inside an END_REQUEST record nothing is added any more. */
  lemma EndingAdds(id: nat, p: Parser, w: Wire, v: View, src: Bytes)
    requires Track(p, w, v) && v.kind.Ending? && !v.done
    ensures var t := Total(id, w, v, src); Frozen(t) && t.out == v.out && t.err == v.err
  {
    hide Total, WireAfter;
    var left := w.content + w.padding;
    var n := Min(left, |src|);
    TotalSplit(id, w, v, src, n);
    TotalDropped(id, w, v, src[..n]);
    var v1 := Total(id, w, v, src[..n]);
    if |src| < left {
      assert src[n..] == [];
      TotalNone(id, WireAfter(w, src[..n]), v1);
    } else {
      TotalGrows(id, WireAfter(w, src[..n]), v1, src[n..]);
    }
  }

  lemma EndingStays(id: nat, w: Wire, v: View, src: Bytes)
    requires w.Aligned() && w.content + w.padding > 0 && v.kind.Ending? && !v.done
    ensures var t := Total(id, w, v, src); Frozen(t) && t.out == v.out && t.err == v.err
  {
    EndingAdds(id, Parser(0, w.content + w.padding, true), w, v, src);
  }

  lemma TrackBetween(p: Parser, w: Wire, v: View)
    requires Track(p, w, v) && !p.inFrame
    ensures Between(w) && w.Aligned() && v.kind.Idle?
  {
  }

  lemma TrackFacts(p: Parser, w: Wire, v: View)
    requires Track(p, w, v)
    ensures p.Valid() && w.Aligned()
    ensures p.remaining > 0 ==> p.remaining == w.content && (v.kind.Out? || v.kind.Err?)
    ensures p.remaining == 0 && v.kind.Out? ==> w.content == 0
    ensures w.content + w.padding == 0 ==> v.kind.Idle?
    ensures p.remaining + p.skip == w.content + w.padding
  {
  }

  // How the position moves, for any handler that fits the request.

  ghost predicate Moved(id: nat, t: View, w: Wire, v: View, src: Bytes, n: nat, p1: Parser, w1: Wire, v1: View)
    requires n <= |src|
  {
    w1 == WireAfter(w, src[..n]) && v1 == Total(id, w, v, src[..n]) && Position(id, t, p1, w1, v1, src[n..])
  }

  lemma MovePayload<S(!new)>(id: nat, t: View, p: Parser, w: Wire, v: View, src: Bytes, h: Handler<S>, s: S)
    returns (w1: Wire, v1: View)
    requires Fits(h, id) && Position(id, t, p, w, v, src) && p.Valid() && p.remaining > 0
    ensures var r := PayloadStep(p, src, h, s);
            && r.used <= Min(p.remaining, |src|)
            && Moved(id, t, w, v, src, r.used, r.parser, w1, v1)
            && r.parser == p.(remaining := p.remaining - r.used)
            && w1 == w.(content := w.content - r.used)
            && v1 == ViewOf(id, w, v, Payload(src[..r.used]))
  {
    hide Total, WireAfter, Track, Agrees, SeeData;
    var r := PayloadStep(p, src, h, s);
    var d := src[..r.used];
    TrackFacts(p, w, v);
    TrackPayload(id, p, w, v, src, h, s);
    TotalSplit(id, w, v, src, r.used);
    TotalPayload(id, w, v, d);
    WireContent(w.content, w.padding, d);
    w1, v1 := WireAfter(w, d), Total(id, w, v, d);
  }

  lemma MoveSkip<S(!new)>(id: nat, t: View, p: Parser, w: Wire, v: View, src: Bytes, h: Handler<S>, s: S)
    returns (w1: Wire, v1: View)
    requires Position(id, t, p, w, v, src) && p.Valid() && p.remaining == 0 && p.skip > 0
    ensures var r := SkipStep(p, src, h, s);
            && r.used <= |src|
            && Moved(id, t, w, v, src, r.used, r.parser, w1, v1)
            && r.parser == p.(skip := p.skip - r.used)
            && w1.content == w.content - Min(w.content, r.used)
            && v1 == ViewOf(id, w, v, Dropped(src[..r.used]))
  {
    hide Total, WireAfter, Track, Agrees, SeeData;
    var r := SkipStep(p, src, h, s);
    var d := src[..r.used];
    TrackFacts(p, w, v);
    TrackSkip(id, p, w, v, src, h, s);
    TotalSplit(id, w, v, src, r.used);
    TotalDropped(id, w, v, d);
    WireRest(w.content, w.padding, d, Min(w.content, |d|));
    w1, v1 := WireAfter(w, d), Total(id, w, v, d);
  }

  lemma MoveHeader<S(!new)>(id: nat, t: View, p: Parser, w: Wire, v: View, src: Bytes, h: Handler<S>, s: S)
    returns (w1: Wire, v1: View, kind: Kind)
    requires Fits(h, id) && Position(id, t, p, w, v, src) && p.Valid() && !p.inFrame && |src| >= HEADER_SIZE
    ensures var r := HeaderStep(p, src, h, s);
            && r.used == HEADER_SIZE
            && r.parser.inFrame
            && (r.halt.None? ==> Moved(id, t, w, v, src, HEADER_SIZE, r.parser, w1, v1))
            && r.parser.remaining + r.parser.skip == w1.content + w1.padding
            && r.parser.remaining
               == if h.onHeader(h.onConsumed(s, HEADER_SIZE), src[1], Be16(src[2], src[3])).result == Skip then 0 else w1.content
    ensures kind == KindOf(id, src[1], Be16(src[2], src[3]))
    ensures v1 == CloseWhen(v.(kind := kind), w1.content + w1.padding == 0)
    ensures Extends(v1, t)
    ensures kind.Ending? && !v.done ==> Frozen(t) && t.out == v.out
  {
    hide Total, WireAfter, Track, Agrees, SeeData, Be16, Frozen;
    var r := HeaderStep(p, src, h, s);
    var d, rest := src[..HEADER_SIZE], src[HEADER_SIZE..];
    TrackFacts(p, w, v);
    TrackBetween(p, w, v);
    TrackHeader(id, p, w, v, src, h, s);
    TotalSplit(id, w, v, src, HEADER_SIZE);
    TotalHeader(id, w, v, d);
    WireHeader(w, d);
    w1, v1 := WireAfter(w, d), Total(id, w, v, d);
    kind := KindOf(id, src[1], Be16(src[2], src[3]));
    TotalGrows(id, w1, v1, rest);
    if kind.Ending? && !v.done {
      EndingHeader(id, w1, v, v1, rest, t);
    }
  }

  lemma EndingHeader(id: nat, w: Wire, v: View, v1: View, rest: Bytes, t: View)
    requires w.Aligned() && !v.done && Total(id, w, v1, rest) == t && Extends(v1, t)
    requires v1 == CloseWhen(v.(kind := Ending), w.content + w.padding == 0)
    ensures Frozen(t) && t.out == v.out
  {
    hide Total;
    if w.content + w.padding > 0 {
      EndingStays(id, w, v1, rest);
    }
  }

  // How the ledger moves on the direct path.

  lemma LedgerPayload(declared: int, t: View, p: Parser, w: Wire, v: View, c: Client, d: Bytes, n: nat,
                      p1: Parser, w1: Wire, v1: View)
    requires Ledger(declared, t, p, w, v, c) && p.Valid()
    requires d != [] && |d| <= p.remaining == w.content && n <= |d|
    requires p1 == p.(remaining := p.remaining - n) && w1 == w.(content := w.content - n)
    requires v.kind.Out? || v.kind.Err?
    requires v1 == CloseWhen(SeeData(v, d[..n]), n > 0 && n == w.content && w.padding == 0)
    requires p.remaining + p.skip == w.content + w.padding
    requires Extends(SeeData(v, d), t) && n == DirectPayload(c, d).taken
    ensures var a := DirectPayload(c, d);
            if a.result == Closed then Finished(declared, t, a.state) else Ledger(declared, t, p1, w1, v1, a.state)
  {
    assert v.out + [] == v.out && v.err + [] == v.err;
    if c.stderr {
      assert d[..n] == d;
      ForwardMore(t, v.err, c, d);
    }
  }

  lemma LedgerSkip(declared: int, t: View, p: Parser, w: Wire, v: View, c: Client, d: Bytes,
                   p1: Parser, w1: Wire, v1: View)
    requires Ledger(declared, t, p, w, v, c)
    requires p.Valid() && p.remaining == 0 < p.skip == w.content + w.padding && |d| <= p.skip
    requires p1 == p.(skip := p.skip - |d|) && w1.content == w.content - Min(w.content, |d|)
    requires v.kind.Out? ==> w.content == 0
    requires v1 == CloseWhen(SeeData(v, d[..Min(w.content, |d|)]), d != [] && |d| == w.content + w.padding)
    ensures Ledger(declared, t, p1, w1, v1, c)
  {
    if v.kind.Out? || v.kind.Err? {
      SeeDataNone(v);
    }
  }

  lemma LedgerEnd(declared: int, t: View, p: Parser, w: Wire, v: View, c: Client, p1: Parser)
    requires Ledger(declared, t, p, w, v, c) && Extends(v, t)
    requires p.EndPending() && v.kind.Idle?
    requires p1.remaining == p.remaining && p1.skip == p.skip && !p1.inFrame
    ensures var a := DirectEnd(c);
            if a.result == Closed then Finished(declared, t, a.state) else Ledger(declared, t, p1, w, v, a.state)
  {
  }

  /** A header opens a record of this kind. */
  ghost predicate OpenedFrame(kind: Kind, p: Parser, v: View, p1: Parser, w1: Wire, v1: View) {
    && !p.inFrame && v.kind.Idle? && p1.inFrame
    && p1.remaining + p1.skip == w1.content + w1.padding
    && v1 == CloseWhen(v.(kind := kind), w1.content + w1.padding == 0)
  }

  ghost predicate Opened(kind: Kind, p: Parser, v: View, p1: Parser, w1: Wire, v1: View) {
    && OpenedFrame(kind, p, v, p1, w1, v1)
    && p1.remaining == if kind.Out? || kind.Err? then w1.content else 0
  }

  lemma OpenedPhase(kind: Kind, p: Parser, v: View, p1: Parser, w1: Wire, v1: View, ended: bool)
    requires OpenedFrame(kind, p, v, p1, w1, v1) && Phase(p, v, ended)
    ensures !ended && !v.done && Phase(p1, v1, kind.Ending?)
  {
  }

  lemma OpenedStreams(kind: Kind, p: Parser, v: View, p1: Parser, w1: Wire, v1: View, stderr: bool)
    requires Opened(kind, p, v, p1, w1, v1) && (kind.Out? ==> !stderr) && (kind.Err? ==> stderr)
    ensures Streams(p1, w1, v1, stderr)
    ensures v1.out == v.out && v1.err == v.err && v1.late == v.late && (v.done ==> v1.done)
  {
  }

  lemma PhaseBetween(p: Parser, v: View, ended: bool)
    requires Phase(p, v, ended) && !p.inFrame && v.kind.Idle?
    ensures !ended && !v.done
  {
  }

  lemma LedgerHeader(id: nat, rtype: nat, rid: nat, declared: int, t: View, p: Parser, w: Wire, v: View, c: Client,
                     p1: Parser, w1: Wire, v1: View)
    requires Ledger(declared, t, p, w, v, c)
    requires !p.inFrame && v.kind.Idle?
    requires KindOf(id, rtype, rid).Ending? ==> Frozen(t) && t.out == v.out
    requires DirectHeader(id, c, rtype, rid).result != Closed ==> Opened(KindOf(id, rtype, rid), p, v, p1, w1, v1)
    ensures var a := DirectHeader(id, c, rtype, rid);
            if a.result == Closed then Finished(declared, t, a.state) else Ledger(declared, t, p1, w1, v1, a.state)
  {
    hide OpenedFrame, Phase, Streams;
    var a := DirectHeader(id, c, rtype, rid);
    PhaseBetween(p, v, c.endRequest);
    if a.result != Closed {
      OpenedPhase(KindOf(id, rtype, rid), p, v, p1, w1, v1, c.endRequest);
      OpenedStreams(KindOf(id, rtype, rid), p, v, p1, w1, v1, a.state.stderr);
    }
  }

  // Each step keeps the books, or ends the client for a reason.

  ghost predicate StepOutcome(id: nat, declared: int, t: View, w: Wire, v: View, src: Bytes, r: StepResult<Client>)
    requires r.used <= |src|
  {
    if r.halt == Some(CLOSED) then Finished(declared, t, r.state)
    else Books(id, declared, t, r.parser, WireAfter(w, src[..r.used]), Total(id, w, v, src[..r.used]),
               r.state, src[r.used..])
  }

  lemma DisposeKeeps(declared: int, t: View, p: Parser, w: Wire, v: View, c: Client, n: nat)
    ensures Ledger(declared, t, p, w, v, Dispose(c, n)) == Ledger(declared, t, p, w, v, c)
    ensures Finished(declared, t, Dispose(c, n)) == Finished(declared, t, c)
  {
  }

  lemma DirectPayloadStep(id: nat, declared: int, t: View, p: Parser, w: Wire, v: View, c: Client, src: Bytes)
    requires Books(id, declared, t, p, w, v, c, src) && p.Valid() && p.remaining > 0
    requires Sane(DirectHandler(id))
    ensures var r := PayloadStep(p, src, DirectHandler(id), c);
            r.used <= |src| && StepOutcome(id, declared, t, w, v, src, r)
  {
    hide Total, WireAfter, Track, Agrees, SeeData, Ledger, Finished, DirectPayload;
    var h := DirectHandler(id);
    DirectFits(id);
    TrackFacts(p, w, v);
    var r := PayloadStep(p, src, h, c);
    var w1, v1 := MovePayload(id, t, p, w, v, src, h, c);
    if src == [] {
      assert src[..0] == [] && src[0..] == [];
      NoBytes(w);
      TotalNone(id, w, v);
    } else {
      var d := src[..Min(p.remaining, |src|)];
      OfferedCounts(id, w, v, src, |d|, t);
      assert d[..r.used] == src[..r.used];
      assert r.used == 0 ==> src[r.used..] == src;
      LedgerPayload(declared, t, p, w, v, c, d, r.used, r.parser, w1, v1);
      DisposeKeeps(declared, t, r.parser, w1, v1, h.onPayload(c, d).state, r.used);
    }
  }

  lemma DirectSkipStep(id: nat, declared: int, t: View, p: Parser, w: Wire, v: View, c: Client, src: Bytes)
    requires Books(id, declared, t, p, w, v, c, src) && p.Valid() && p.remaining == 0 && p.skip > 0
    ensures var r := SkipStep(p, src, DirectHandler(id), c);
            r.used <= |src| && StepOutcome(id, declared, t, w, v, src, r)
  {
    hide Total, WireAfter, Track, Agrees, SeeData, Ledger;
    var h := DirectHandler(id);
    TrackFacts(p, w, v);
    var r := SkipStep(p, src, h, c);
    var w1, v1 := MoveSkip(id, t, p, w, v, src, h, c);
    LedgerSkip(declared, t, p, w, v, c, src[..r.used], r.parser, w1, v1);
    DisposeKeeps(declared, t, r.parser, w1, v1, c, r.used);
  }

  lemma DirectEndStep(id: nat, declared: int, t: View, p: Parser, w: Wire, v: View, c: Client, src: Bytes)
    requires Books(id, declared, t, p, w, v, c, src) && p.EndPending()
    ensures var r := EndStep(p, DirectHandler(id), c);
            r.used == 0 && StepOutcome(id, declared, t, w, v, src, r)
  {
    hide Total, WireAfter, Track, Agrees, Ledger, Finished;
    var r := EndStep(p, DirectHandler(id), c);
    TrackFacts(p, w, v);
    TrackEnd(p, w, v, r.parser);
    TotalGrows(id, w, v, src);
    LedgerEnd(declared, t, p, w, v, c, r.parser);
    NoBytes(w);
    TotalNone(id, w, v);
    assert src[..0] == [] && src[0..] == src;
  }

  lemma DirectHeaderStep(id: nat, declared: int, t: View, p: Parser, w: Wire, v: View, c: Client, src: Bytes)
    requires Books(id, declared, t, p, w, v, c, src) && p.Valid() && !p.inFrame && |src| >= HEADER_SIZE
    ensures var r := HeaderStep(p, src, DirectHandler(id), c);
            r.used == HEADER_SIZE && StepOutcome(id, declared, t, w, v, src, r)
  {
    hide Total, WireAfter, Track, Agrees, Ledger, Finished, Be16;
    var h := DirectHandler(id);
    DirectFits(id);
    TrackFacts(p, w, v);
    TrackBetween(p, w, v);
    var r := HeaderStep(p, src, h, c);
    var w1, v1, kind := MoveHeader(id, t, p, w, v, src, h, c);
    DisposeKeeps(declared, t, p, w, v, c, HEADER_SIZE);
    LedgerHeader(id, src[1], Be16(src[2], src[3]), declared, t, p, w, v, Dispose(c, HEADER_SIZE), r.parser, w1, v1);
  }

  lemma DirectStep(id: nat, declared: int, t: View, p: Parser, w: Wire, v: View, c: Client, src: Bytes)
    requires Books(id, declared, t, p, w, v, c, src) && p.Valid()
    requires Sane(DirectHandler(id))
    ensures var r := Step(p, src, DirectHandler(id), c); StepOutcome(id, declared, t, w, v, src, r)
  {
    hide Books, StepOutcome, Finished, Total, WireAfter, DirectHandler;
    if p.remaining > 0 {
      DirectPayloadStep(id, declared, t, p, w, v, c, src);
    } else if p.skip > 0 {
      DirectSkipStep(id, declared, t, p, w, v, c, src);
    } else if p.inFrame {
      DirectEndStep(id, declared, t, p, w, v, c, src);
    } else if |src| >= HEADER_SIZE {
      DirectHeaderStep(id, declared, t, p, w, v, c, src);
    } else {
      StepNothing(id, declared, t, p, w, v, c, src, Step(p, src, DirectHandler(id), c));
    }
  }

  lemma StepNothing(id: nat, declared: int, t: View, p: Parser, w: Wire, v: View, c: Client, src: Bytes,
                    r: StepResult<Client>)
    requires Books(id, declared, t, p, w, v, c, src)
    requires r.parser == p && r.used == 0 && r.state == c && r.halt != Some(CLOSED)
    ensures StepOutcome(id, declared, t, w, v, src, r)
  {
    hide Total, WireAfter, Track, Agrees, Ledger;
    NoBytes(w);
    TotalNone(id, w, v);
    assert src[..0] == [] && src[0..] == src;
  }

  ghost predicate DriveOutcome(id: nat, declared: int, t: View, w: Wire, v: View, src: Bytes, o: Outcome<Client>)
    requires o.used <= |src|
  {
    if o.result == CLOSED then Finished(declared, t, o.state)
    else Books(id, declared, t, o.parser, WireAfter(w, src[..o.used]), Total(id, w, v, src[..o.used]),
               o.state, src[o.used..])
  }

  lemma PlaceChain(id: nat, w: Wire, v: View, src: Bytes, m: nat, n: nat)
    requires m + n <= |src|
    ensures var w1, v1, rest := WireAfter(w, src[..m]), Total(id, w, v, src[..m]), src[m..];
            && WireAfter(w1, rest[..n]) == WireAfter(w, src[..m + n])
            && Total(id, w1, v1, rest[..n]) == Total(id, w, v, src[..m + n])
            && rest[n..] == src[m + n..]
  {
    hide *;
    assert src[..m] + src[m..][..n] == src[..m + n];
    WireConcat(w, src[..m], src[m..][..n]);
    TotalConcat(id, w, v, src[..m], src[m..][..n]);
  }

  /**
   The direct path, for every consumer: the books stay balanced, and the client
   ends only at its END_REQUEST, because the length is wrong, or because the
   consumer closed it.
   */
  lemma {:induction false} DriveDirect(id: nat, declared: int, t: View, p: Parser, w: Wire, v: View, c: Client, src: Bytes)
    requires Books(id, declared, t, p, w, v, c, src) && p.Valid()
    requires Sane(DirectHandler(id))
    ensures DriveOutcome(id, declared, t, w, v, src, Drive(p, src, DirectHandler(id), c))
    decreases |src|, p.Rank()
  {
    hide Step, Books, Finished, Total, WireAfter, DirectHandler, Sane;
    var h := DirectHandler(id);
    var r := Step(p, src, h, c);
    DirectStep(id, declared, t, p, w, v, c, src);
    if r.halt.None? {
      var w1, v1, rest := WireAfter(w, src[..r.used]), Total(id, w, v, src[..r.used]), src[r.used..];
      DriveDirect(id, declared, t, r.parser, w1, v1, r.state, rest);
      PlaceChain(id, w, v, src, r.used, Drive(r.parser, rest, h, r.state).used);
    }
  }

  // A consumer that takes everything.

  lemma GreedyStep(id: nat, p: Parser, c: Client, src: Bytes)
    requires p.Valid() && c.sink.Greedy? && Sane(DirectHandler(id))
    ensures var r := Step(p, src, DirectHandler(id), c);
            && r.state.sink.Greedy?
            && (r.halt.Some? ==> r.halt.value in {MORE, CLOSED})
  {
    hide DirectPayload, DirectEnd;
  }

  lemma {:induction false} DriveGreedy(id: nat, p: Parser, c: Client, src: Bytes)
    requires p.Valid() && c.sink.Greedy? && Sane(DirectHandler(id))
    ensures var o := Drive(p, src, DirectHandler(id), c);
            o.state.sink.Greedy? && o.result in {MORE, CLOSED}
    decreases |src|, p.Rank()
  {
    hide Step, DirectHandler, Sane;
    var r := Step(p, src, DirectHandler(id), c);
    GreedyStep(id, p, c, src);
    if r.halt.None? {
      DriveGreedy(id, r.parser, r.state, src[r.used..]);
    }
  }

  /** Too few bytes are left for another step. */
  ghost predicate Leftover(p: Parser, rest: Bytes) {
    rest == [] || (!p.inFrame && |rest| < HEADER_SIZE)
  }

  lemma {:induction false} MoreMeansLeftover<S(!new)>(p: Parser, src: Bytes, h: Handler<S>, s: S)
    requires Sane(h) && p.Valid()
    ensures var o := Drive(p, src, h, s); o.result == MORE ==> Leftover(o.parser, src[o.used..])
    decreases |src|, p.Rank()
  {
    var r := Step(p, src, h, s);
    if r.halt.None? {
      hide Step;
      MoreMeansLeftover(r.parser, src[r.used..], h, r.state);
      var n := Drive(r.parser, src[r.used..], h, r.state).used;
      assert src[r.used..][n..] == src[r.used + n..];
    }
  }

  lemma LeftoverAddsNothing(id: nat, p: Parser, w: Wire, v: View, rest: Bytes)
    requires Track(p, w, v) && Leftover(p, rest)
    ensures Total(id, w, v, rest) == v
  {
    hide Total;
    if rest == [] {
      TotalNone(id, w, v);
    } else {
      TrackBetween(p, w, v);
      WireCollect(w, rest);
      TotalAll(id, w, v, rest);
      SeeNothing(id, v);
    }
  }

  lemma SeeNothing(id: nat, v: View)
    ensures SeeAll(id, v, []) == v
  {
  }
}
