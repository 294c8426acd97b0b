/**
 Consuming from the bucket path.  The handler stops inside the first payload
 byte it must not take, and otherwise runs on through everything it can skip.
 */
module FcgiConsume {
  import opened Octets
  import opened FcgiWire
  import opened FcgiParser
  import opened FcgiDecode
  import opened FcgiView
  import opened FcgiClient
  import opened FcgiBuckets

  /** `asserted` says that every assertion on the way held. */
  datatype Consume = Consume(client: Client, nbytes: nat, total: nat, released: bool, asserted: bool)

  function StartConsume(c: Client, nbytes: nat, released: bool): Consume {
    Consume(c, nbytes, 0, released, true)
  }

  function ConsumeHeader(id: nat, k: Consume, rtype: nat, rid: nat): (a: Reply<Consume>)
    ensures a.result == if KindOf(id, rtype, rid).Out? || KindOf(id, rtype, rid).Err? then Continue else Skip
    ensures a.state.client.input == k.client.input
  {
    if rid != id then Reply(Skip, k)
    else if rtype == END_REQUEST then
      Reply(Skip, if k.released
                  then k.(client := k.client.(endRequest := true), asserted := k.asserted && k.client.available == 0)
                  else k)
    else if rtype == STDOUT then Reply(Continue, k.(client := k.client.(stderr := false)))
    else if rtype == STDERR then Reply(Continue, k.(client := k.client.(stderr := true)))
    else Reply(Skip, k)
  }

  function ConsumeStderr(k: Consume, n: nat): Consume {
    k.(asserted := k.asserted && n <= k.client.skipStderr,
       client := k.client.(skipStderr := if n <= k.client.skipStderr then k.client.skipStderr - n else 0))
  }

  function ConsumeStdout(k: Consume, d: Bytes): Consume
    requires |d| <= k.nbytes
  {
    k.(nbytes := k.nbytes - |d|, total := k.total + |d|,
       client := k.client.(delivered := k.client.delivered + d,
                           available := if k.client.available > 0 then k.client.available - |d| else k.client.available))
  }

  function ConsumePayload(k: Consume, d: Bytes): (r: PayloadReply<Consume>)
    ensures r.taken <= |d|
    ensures if r.result.Continue? then r.taken == |d| else r.result.Stop? && r.taken < |d|
    ensures r.state.client.input == k.client.input
  {
    if k.client.stderr then
      PayloadReply(Continue, |d|, ConsumeStderr(k, |d|))
    else if k.nbytes < |d| then
      PayloadReply(Stop, k.nbytes, ConsumeStdout(k, d[..k.nbytes]))
    else
      PayloadReply(Continue, |d|, ConsumeStdout(k, d))
  }

  function ConsumeDispose(k: Consume, n: nat): Consume {
    k.(client := Dispose(k.client, n))
  }

  function ConsumeHandler(id: nat): Handler<Consume> {
    Handler((k, t, i) => ConsumeHeader(id, k, t, i),
            (k, d) => ConsumePayload(k, d),
            k => Reply(Continue, k),
            (k, n) => ConsumeDispose(k, n))
  }

  lemma ConsumeFits(id: nat)
    ensures Fits(ConsumeHandler(id), id)
  {
  }

  /** How many bytes to take, and where in the STDOUT stream that leads to. */
  datatype Goal = Goal(nbytes: nat, end: nat)

  /** END_REQUEST is absent or complete. */
  ghost predicate Settled(t: View, released: bool) {
    !t.kind.Ending? && (released <==> t.done)
  }

  ghost predicate Ended(v: View, endRequest: bool) {
    if v.done then endRequest else (v.kind.Ending? <==> endRequest)
  }

  ghost predicate ConsumeLedger(declared: int, t: View, goal: Goal, p: Parser, w: Wire, v: View, k: Consume) {
    && v.late != LateOut
    && (k.asserted <==> v.late == NoLate)
    && (!v.done ==> v.late == NoLate)
    && k.client.status.Active?
    && v.out == k.client.delivered
    && Streams(p, w, v, k.client.stderr)
    && Ended(v, k.client.endRequest)
    && Forwarded(t, v.err, k.client.forwarded, k.client.skipStderr)
    && Filled(declared, t, v, k.client)
    && Length(declared, t, k.client.available, k.client.delivered)
    && Settled(t, k.released)
    && k.nbytes + k.total == goal.nbytes
    && k.nbytes + |v.out| == goal.end
    && k.nbytes <= |t.out| - |v.out|
    && (k.client.endRequest ==> k.client.available == 0)
  }

  lemma ConsumeStdoutMore(declared: int, t: View, goal: Goal, p: Parser, w: Wire, v: View, k: Consume, d: Bytes)
    requires ConsumeLedger(declared, t, goal, p, w, v, k) && !v.done && !k.client.endRequest
    requires |d| <= k.nbytes && v.out + d <= t.out
    ensures var k1, v1 := ConsumeStdout(k, d), v.(out := v.out + d);
            && v1.out == k1.client.delivered
            && Filled(declared, t, v1, k1.client)
            && Length(declared, t, k1.client.available, k1.client.delivered)
            && k1.nbytes <= |t.out| - |v1.out|
            && k1.nbytes + k1.total == goal.nbytes
            && k1.nbytes + |v1.out| == goal.end
  {
  }

  lemma ConsumeLedgerPayload(declared: int, t: View, goal: Goal, p: Parser, w: Wire, v: View, k: Consume, d: Bytes, n: nat,
                             p1: Parser, w1: Wire, v1: View)
    requires ConsumeLedger(declared, t, goal, p, w, v, k) && p.Valid() && Extends(v, t)
    requires d != [] && |d| <= p.remaining == w.content && n == ConsumePayload(k, d).taken
    requires p1 == p.(remaining := p.remaining - n) && w1 == w.(content := w.content - n)
    requires v1 == CloseWhen(SeeData(v, d[..n]), n > 0 && n == w.content && w.padding == 0)
    requires v.kind.Out? || v.kind.Err?
    requires Extends(SeeData(v, d), t)
    ensures ConsumeLedger(declared, t, goal, p1, w1, v1, ConsumePayload(k, d).state)
    ensures ConsumePayload(k, d).result.Stop? ==>
              Stopped(t, v1, ConsumePayload(k, d).state)
  {
    var k1 := ConsumePayload(k, d).state;
    if k.client.stderr {
      assert d[..n] == d;
    } else if v.done {
      assert d[..n] == [] && v.out + [] == v.out;
    } else {
      var taken := d[..n];
      assert v.out + taken <= v.out + d;
      ConsumeStdoutMore(declared, t, goal, p, w, v, k, taken);
      if n == |d| {
        assert taken == d;
      }
    }
  }

  lemma ConsumeLedgerSkip(declared: int, t: View, goal: Goal, p: Parser, w: Wire, v: View, k: Consume, d: Bytes,
                          p1: Parser, w1: Wire, v1: View)
    requires ConsumeLedger(declared, t, goal, p, w, v, k)
    requires p.Valid() && p.remaining == 0 < p.skip == w.content + w.padding && |d| <= p.skip
    requires p1 == p.(skip := p.skip - |d|) && w1.content == w.content - Min(w.content, |d|)
    requires v.kind.Out? ==> w.content == 0
    requires v1 == CloseWhen(SeeData(v, d[..Min(w.content, |d|)]), d != [] && |d| == w.content + w.padding)
    ensures ConsumeLedger(declared, t, goal, p1, w1, v1, k)
  {
    if v.kind.Out? || v.kind.Err? {
      SeeDataNone(v);
    }
    hide Forwarded, Length, Settled;
  }

  lemma ConsumeLedgerEnd(declared: int, t: View, goal: Goal, p: Parser, w: Wire, v: View, k: Consume, p1: Parser)
    requires ConsumeLedger(declared, t, goal, p, w, v, k) && v.kind.Idle?
    requires p1.remaining == p.remaining && p1.skip == p.skip
    ensures ConsumeLedger(declared, t, goal, p1, w, v, k)
  {
    hide Forwarded, Length, Settled, Filled, Ended;
  }

  lemma OpenedEnded(kind: Kind, p: Parser, v: View, p1: Parser, w1: Wire, v1: View, before: bool, after: bool)
    requires Opened(kind, p, v, p1, w1, v1) && Ended(v, before)
    requires after == (before || kind.Ending?)
    ensures Ended(v1, after)
  {
  }

  lemma ConsumeLedgerHeader(id: nat, rtype: nat, rid: nat, declared: int, t: View, goal: Goal, p: Parser, w: Wire, v: View,
                            k: Consume, p1: Parser, w1: Wire, v1: View)
    requires ConsumeLedger(declared, t, goal, p, w, v, k) && Extends(v, t)
    requires KindOf(id, rtype, rid).Ending? && !v.done ==> Frozen(t) && t.out == v.out
    requires Opened(KindOf(id, rtype, rid), p, v, p1, w1, v1)
    ensures ConsumeLedger(declared, t, goal, p1, w1, v1, ConsumeHeader(id, k, rtype, rid).state)
  {
    hide OpenedFrame, Streams, Forwarded, Length, Ended;
    var kind := KindOf(id, rtype, rid);
    var k1 := ConsumeHeader(id, k, rtype, rid).state;
    OpenedStreams(kind, p, v, p1, w1, v1, k1.client.stderr);
    EndedFacts(v, k.client.endRequest);
    OpenedEnded(kind, p, v, p1, w1, v1, k.client.endRequest, k1.client.endRequest);
  }

  lemma EndedFacts(v: View, endRequest: bool)
    requires Ended(v, endRequest)
    ensures v.done ==> endRequest
  {
  }

  /** Why the handler stopped: everything was taken, and more STDOUT payload follows, before the end or behind it. */
  ghost predicate Stopped(t: View, v: View, k: Consume) {
    k.nbytes == 0 && if v.done then v.late != NoLate || t.late == LateOut else |v.out| < |t.out|
  }

  ghost predicate ConsumePlace(id: nat, declared: int, t: View, goal: Goal, p: Parser, w: Wire, v: View, k: Consume, src: Bytes) {
    k.client.input == src && Position(id, t, p, w, v, src) && ConsumeLedger(declared, t, goal, p, w, v, k)
  }

  ghost predicate ConsumeOutcome(id: nat, declared: int, t: View, goal: Goal, w: Wire, v: View, src: Bytes,
                                 p1: Parser, used: nat, k: Consume, halt: Option<FeedResult>)
    requires used <= |src|
  {
    var w1, v1 := WireAfter(w, src[..used]), Total(id, w, v, src[..used]);
    && ConsumePlace(id, declared, t, goal, p1, w1, v1, k, src[used..])
    && (halt.None? || halt.value == MORE || (halt.value == STOP && Stopped(t, v1, k)))
  }

  ghost predicate ConsumeStepOutcome(id: nat, declared: int, t: View, goal: Goal, w: Wire, v: View, src: Bytes,
                                     r: StepResult<Consume>)
    requires r.used <= |src|
  {
    ConsumeOutcome(id, declared, t, goal, w, v, src, r.parser, r.used, r.state, r.halt)
  }

  lemma ConsumeDisposeKeeps(declared: int, t: View, goal: Goal, p: Parser, w: Wire, v: View, k: Consume, n: nat)
    ensures ConsumeLedger(declared, t, goal, p, w, v, ConsumeDispose(k, n)) == ConsumeLedger(declared, t, goal, p, w, v, k)
  {
    hide Streams, Forwarded, Length, Ended, Settled;
  }

  lemma ConsumeGoesOn(id: nat, declared: int, t: View, goal: Goal, p: Parser, w: Wire, v: View, k: Consume, src: Bytes)
    requires ConsumePlace(id, declared, t, goal, p, w, v, k, src)
    ensures ConsumeOutcome(id, declared, t, goal, w, v, src, p, 0, k, None)
    ensures ConsumeOutcome(id, declared, t, goal, w, v, src, p, 0, k, Some(MORE))
  {
    hide Total, WireAfter, ConsumePlace;
    NoBytes(w);
    TotalNone(id, w, v);
    assert src[..0] == [] && src[0..] == src;
  }

  lemma ConsumeStepPayload(id: nat, declared: int, t: View, goal: Goal, p: Parser, w: Wire, v: View, k: Consume, src: Bytes)
    requires ConsumePlace(id, declared, t, goal, p, w, v, k, src)
    requires p.Valid() && p.remaining > 0 && Sane(ConsumeHandler(id))
    ensures var r := PayloadStep(p, src, ConsumeHandler(id), k);
            r.used <= |src| && ConsumeStepOutcome(id, declared, t, goal, w, v, src, r)
  {
    hide Total, WireAfter, Track, Agrees, SeeData, ConsumeLedger, ConsumePayload;
    var h := ConsumeHandler(id);
    ConsumeFits(id);
    TrackFacts(p, w, v);
    var r := PayloadStep(p, src, h, k);
    if src == [] {
      ConsumeGoesOn(id, declared, t, goal, p, w, v, k, src);
    } else {
      var w1, v1 := MovePayload(id, t, p, w, v, src, h, k);
      var d := src[..Min(p.remaining, |src|)];
      OfferedCounts(id, w, v, src, |d|, t);
      PositionFacts(id, t, p, w, v, src);
      assert d[..r.used] == src[..r.used];
      assert r.used == 0 ==> src[r.used..] == src;
      ConsumeLedgerPayload(declared, t, goal, p, w, v, k, d, r.used, r.parser, w1, v1);
      ConsumeDisposeKeeps(declared, t, goal, r.parser, w1, v1, h.onPayload(k, d).state, r.used);
      ViewDone(id, w, v, src[..r.used]);
    }
  }

  lemma ViewDone(id: nat, w: Wire, v: View, d: Bytes)
    ensures v.done ==> ViewOf(id, w, v, Payload(d)).done
  {
  }

  lemma ConsumeStepSkip(id: nat, declared: int, t: View, goal: Goal, p: Parser, w: Wire, v: View, k: Consume, src: Bytes)
    requires ConsumePlace(id, declared, t, goal, p, w, v, k, src)
    requires p.Valid() && p.remaining == 0 && p.skip > 0
    ensures var r := SkipStep(p, src, ConsumeHandler(id), k);
            r.used <= |src| && ConsumeStepOutcome(id, declared, t, goal, w, v, src, r)
  {
    hide Total, WireAfter, Track, Agrees, SeeData, ConsumeLedger;
    TrackFacts(p, w, v);
    var r := SkipStep(p, src, ConsumeHandler(id), k);
    var w1, v1 := MoveSkip(id, t, p, w, v, src, ConsumeHandler(id), k);
    ConsumeLedgerSkip(declared, t, goal, p, w, v, k, src[..r.used], r.parser, w1, v1);
    ConsumeDisposeKeeps(declared, t, goal, r.parser, w1, v1, k, r.used);
  }

  lemma ConsumeStepEnd(id: nat, declared: int, t: View, goal: Goal, p: Parser, w: Wire, v: View, k: Consume, src: Bytes)
    requires ConsumePlace(id, declared, t, goal, p, w, v, k, src) && p.EndPending() && v.kind.Idle?
    ensures var r := EndStep(p, ConsumeHandler(id), k);
            r.used == 0 && ConsumeStepOutcome(id, declared, t, goal, w, v, src, r)
  {
    hide Total, WireAfter, Track, Agrees, ConsumeLedger, ConsumeOutcome, Parser.EndPending;
    var r := EndStep(p, ConsumeHandler(id), k);
    TrackEnd(p, w, v, r.parser);
    ConsumeLedgerEnd(declared, t, goal, p, w, v, k, r.parser);
    ConsumeGoesOn(id, declared, t, goal, r.parser, w, v, k, src);
  }

  lemma ConsumeStepHeader(id: nat, declared: int, t: View, goal: Goal, p: Parser, w: Wire, v: View, k: Consume, src: Bytes)
    requires ConsumePlace(id, declared, t, goal, p, w, v, k, src)
    requires p.Valid() && !p.inFrame && |src| >= HEADER_SIZE
    ensures var r := HeaderStep(p, src, ConsumeHandler(id), k);
            r.used == HEADER_SIZE && ConsumeStepOutcome(id, declared, t, goal, w, v, src, r)
  {
    hide Total, WireAfter, Track, Agrees, ConsumeLedger, Be16, Frozen, Extends, ConsumeHeader, KindOf, Stopped;
    var h := ConsumeHandler(id);
    ConsumeFits(id);
    TrackBetween(p, w, v);
    PositionFacts(id, t, p, w, v, src);
    var r := HeaderStep(p, src, h, k);
    var w1, v1, kind := MoveHeader(id, t, p, w, v, src, h, k);
    ConsumeDisposeKeeps(declared, t, goal, p, w, v, k, HEADER_SIZE);
    ConsumeLedgerHeader(id, src[1], Be16(src[2], src[3]), declared, t, goal, p, w, v,
                        ConsumeDispose(k, HEADER_SIZE), r.parser, w1, v1);
  }

  lemma ConsumeStep(id: nat, declared: int, t: View, goal: Goal, p: Parser, w: Wire, v: View, k: Consume, src: Bytes)
    requires ConsumePlace(id, declared, t, goal, p, w, v, k, src)
    requires p.Valid() && Sane(ConsumeHandler(id))
    ensures ConsumeStepOutcome(id, declared, t, goal, w, v, src, Step(p, src, ConsumeHandler(id), k))
  {
    hide Position, ConsumeLedger, ConsumeOutcome, Total, WireAfter, ConsumeHandler, Parser.EndPending;
    if p.remaining > 0 {
      ConsumeStepPayload(id, declared, t, goal, p, w, v, k, src);
    } else if p.skip > 0 {
      ConsumeStepSkip(id, declared, t, goal, p, w, v, k, src);
    } else if p.inFrame {
      IdleBetween(id, t, p, w, v, src);
      ConsumeStepEnd(id, declared, t, goal, p, w, v, k, src);
    } else if |src| >= HEADER_SIZE {
      ConsumeStepHeader(id, declared, t, goal, p, w, v, k, src);
    } else {
      ConsumeGoesOn(id, declared, t, goal, p, w, v, k, src);
    }
  }

  lemma ConsumeOutcomeChain(id: nat, declared: int, t: View, goal: Goal, w: Wire, v: View, src: Bytes, m: nat, n: nat,
                            p2: Parser, k: Consume, halt: Option<FeedResult>)
    requires m + n <= |src|
    requires ConsumeOutcome(id, declared, t, goal, WireAfter(w, src[..m]), Total(id, w, v, src[..m]), src[m..], p2, n, k, halt)
    ensures ConsumeOutcome(id, declared, t, goal, w, v, src, p2, m + n, k, halt)
  {
    hide ConsumePlace, Stopped, Total, WireAfter;
    PlaceChain(id, w, v, src, m, n);
  }

  lemma {:induction false} DriveConsume(id: nat, declared: int, t: View, goal: Goal, p: Parser, w: Wire, v: View, k: Consume, src: Bytes)
    requires ConsumePlace(id, declared, t, goal, p, w, v, k, src)
    requires p.Valid() && Sane(ConsumeHandler(id))
    ensures var o := Drive(p, src, ConsumeHandler(id), k);
            ConsumeOutcome(id, declared, t, goal, w, v, src, o.parser, o.used, o.state, Some(o.result))
    decreases |src|, p.Rank()
  {
    hide Step, ConsumePlace, Stopped, Total, WireAfter, ConsumeHandler, Sane;
    var h := ConsumeHandler(id);
    var r := Step(p, src, h, k);
    ConsumeStep(id, declared, t, goal, p, w, v, k, src);
    if r.halt.None? {
      var w1, v1, rest := WireAfter(w, src[..r.used]), Total(id, w, v, src[..r.used]), src[r.used..];
      DriveConsume(id, declared, t, goal, r.parser, w1, v1, r.state, rest);
      var o := Drive(r.parser, rest, h, r.state);
      ConsumeOutcomeChain(id, declared, t, goal, w, v, src, r.used, o.used, o.parser, o.state, Some(o.result));
    }
  }

  /** _ConsumeBucketList(n) took exactly the next n bytes and knows whether they were the last. */
  ghost predicate ConsumeResult(id: nat, declared: int, t: View, n: nat, w: Wire, v: View, src: Bytes, o: Outcome<Consume>)
    requires o.used <= |src|
  {
    var w1, v1, c1 := WireAfter(w, src[..o.used]), Total(id, w, v, src[..o.used]), o.state.client;
    && (o.state.asserted <==> !(t.done && |v.out| + n == |t.out| && t.late == LateErr))
    && o.state.nbytes == 0
    && o.state.total == n
    && |v.out| + n <= |t.out|
    && c1.delivered == t.out[..|v.out| + n]
    && (c1.endRequest <==> t.done && |v.out| + n == |t.out|)
    && if c1.endRequest
       then c1.forwarded == t.err && (declared >= 0 ==> |t.out| == declared)
       else Books(id, declared, t, o.parser, w1, v1, c1, src[o.used..]) && Filled(declared, t, v1, c1)
  }

  lemma ConsumeBegins(id: nat, declared: int, t: View, n: nat, p: Parser, w: Wire, v: View, c: Client, src: Bytes, released: bool)
    requires Books(id, declared, t, p, w, v, c, src) && Filled(declared, t, v, c) && Settled(t, released)
    requires !c.endRequest && |v.out| + n <= |t.out|
    ensures ConsumePlace(id, declared, t, Goal(n, |v.out| + n), p, w, v, StartConsume(c, n, released), src)
  {
    hide Position, Phase, Ended, Streams, Forwarded, Length, Filled, Settled;
    NotEnding(id, t, p, w, v, src);
  }

  lemma NotEnding(id: nat, t: View, p: Parser, w: Wire, v: View, src: Bytes)
    requires Position(id, t, p, w, v, src) && Phase(p, v, false)
    ensures Ended(v, false)
  {
    hide Total;
  }

  /** The end of the run: nothing is owed, and the end was reached exactly if it was asked for. */
  ghost predicate Arrived(t: View, v: View, k: Consume, goal: Goal) {
    && k.nbytes == 0
    && |v.out| == goal.end
    && (k.client.endRequest <==> t.done && goal.end == |t.out|)
    && (k.client.endRequest ==> v.done && (v.late == NoLate ==> t.late != LateErr))
  }

  lemma ConsumeArrives(id: nat, declared: int, t: View, goal: Goal, p: Parser, w: Wire, v: View, k: Consume, rest: Bytes, stop: bool)
    requires ConsumePlace(id, declared, t, goal, p, w, v, k, rest)
    requires if stop then Stopped(t, v, k) else Leftover(p, rest)
    ensures Arrived(t, v, k, goal)
  {
    hide Total, Track, Agrees, Streams, Forwarded, Length;
    PositionFacts(id, t, p, w, v, rest);
    if !stop {
      LeftoverAddsNothing(id, p, w, v, rest);
    } else if v.kind.Ending? && !v.done {
      EndingAdds(id, p, w, v, rest);
    }
  }

  lemma ConsumeConcludes(id: nat, declared: int, t: View, goal: Goal, p: Parser, w: Wire, v: View, k: Consume, rest: Bytes)
    requires ConsumePlace(id, declared, t, goal, p, w, v, k, rest) && Arrived(t, v, k, goal)
    ensures k.asserted <==> !(k.client.endRequest && t.late == LateErr)
    ensures k.total == goal.nbytes && goal.end <= |t.out| && k.client.delivered == t.out[..goal.end]
    ensures if k.client.endRequest
            then k.client.forwarded == t.err && (declared >= 0 ==> |t.out| == declared)
            else Books(id, declared, t, p, w, v, k.client, rest) && Filled(declared, t, v, k.client)
  {
    hide Streams, Total, Track, Agrees;
    PositionFacts(id, t, p, w, v, rest);
  }

  /**
   Fill and consume agree.  After the input was filled, taking any `n` of the
   listed bytes leaves the client where the next fill lists the rest; the
   end is reported exactly with the last byte, and the assertion about forwarded
   STDERR payload fails exactly if that byte is the last of a complete response and
   the first payload byte behind the END_REQUEST record is STDERR payload.
   */
  lemma ConsumeTakes(id: nat, declared: int, t: View, n: nat, p: Parser, w: Wire, v: View, c: Client, src: Bytes, released: bool)
    requires Books(id, declared, t, p, w, v, c, src) && Filled(declared, t, v, c) && Settled(t, released)
    requires !c.endRequest && |v.out| + n <= |t.out|
    requires p.Valid() && Sane(ConsumeHandler(id))
    ensures ConsumeResult(id, declared, t, n, w, v, src, Drive(p, src, ConsumeHandler(id), StartConsume(c, n, released)))
  {
    hide Drive, Sane, ConsumeHandler, StartConsume, ConsumePlace, Arrived, Books, Filled, Settled, Total, WireAfter,
         Leftover, Stopped;
    var h, k0, goal := ConsumeHandler(id), StartConsume(c, n, released), Goal(n, |v.out| + n);
    var o := Drive(p, src, h, k0);
    ConsumeBegins(id, declared, t, n, p, w, v, c, src, released);
    DriveConsume(id, declared, t, goal, p, w, v, k0, src);
    MoreMeansLeftover(p, src, h, k0);
    var w1, v1, rest := WireAfter(w, src[..o.used]), Total(id, w, v, src[..o.used]), src[o.used..];
    ConsumeArrives(id, declared, t, goal, o.parser, w1, v1, o.state, rest, o.result == STOP);
    ConsumeConcludes(id, declared, t, goal, o.parser, w1, v1, o.state, rest);
    ArrivedFacts(t, v1, o.state, goal);
  }

  /** The assertion at the entry: it can fail only if there is nothing to consume, and then only for n == 0. */
  lemma ConsumeEntry(id: nat, declared: int, t: View, n: nat, p: Parser, w: Wire, v: View, c: Client, src: Bytes)
    requires Books(id, declared, t, p, w, v, c, src) && Filled(declared, t, v, c) && |v.out| + n <= |t.out|
    ensures c.available == 0 ==> n == 0 && |v.out| == |t.out|
  {
    hide Total, Track, Streams, Phase, Forwarded;
    PositionFacts(id, t, p, w, v, src);
  }

  lemma ArrivedFacts(t: View, v: View, k: Consume, goal: Goal)
    requires Arrived(t, v, k, goal)
    ensures k.nbytes == 0 && (k.client.endRequest <==> t.done && goal.end == |t.out|)
  {
  }
}
