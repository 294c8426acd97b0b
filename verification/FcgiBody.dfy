/**
 The FastCGI client as an object.  Every method keeps the books, so they are
 balanced after any sequence of receiving, filling, consuming and feeding.
 */
module FcgiBody {
  import opened Octets
  import opened FcgiWire
  import opened FcgiParser
  import opened FcgiDecode
  import opened FcgiView
  import opened FcgiClient
  import opened FcgiBuckets
  import opened FcgiConsume
  import opened FcgiLookahead

  // More input arrives behind the unconsumed rest.

  /** A record is in progress exactly while the automaton is inside one. */
  ghost predicate Framed(w: Wire, v: View) {
    w.Valid() && (!v.kind.Idle? ==> w.content + w.padding > 0)
  }

  lemma FramedByte(id: nat, w: Wire, v: View, b: Byte)
    requires Framed(w, v)
    ensures Framed(WireAfter(w, [b]), Total(id, w, v, [b]))
  {
    hide SeeAll, EventsOf, WireAfter, Total, KindOf, Be16;
    WireOne(w, b);
    TotalAll(id, w, v, [b]);
    if w.content > 0 {
      TotalPayload(id, w, v, [b]);
    } else if w.padding > 0 {
      TotalDropped(id, w, v, [b]);
    } else if |w.hdr| == HEADER_SIZE - 1 {
      var rtype, rid := w.hdr[1], Be16(w.hdr[2], w.hdr[3]);
      var closes := Be16(w.hdr[4], w.hdr[5]) + w.hdr[6] == 0;
      SeeConcat(id, v, [Open(rtype, rid)], CloseIf(closes));
      SeeOpen(id, v, rtype, rid);
      SeeCloseIf(id, v.(kind := KindOf(id, rtype, rid)), closes);
    } else {
      SeeNothing(id, v);
    }
  }

  lemma {:induction false} FramedBytes(id: nat, w: Wire, v: View, bytes: Bytes)
    requires Framed(w, v)
    ensures Framed(WireAfter(w, bytes), Total(id, w, v, bytes))
    decreases |bytes|
  {
    hide Framed, Total, WireAfter;
    if bytes == [] {
      NoBytes(w);
      TotalNone(id, w, v);
    } else {
      var b, rest := [bytes[0]], bytes[1..];
      assert bytes == b + rest;
      FramedByte(id, w, v, bytes[0]);
      FramedBytes(id, WireAfter(w, b), Total(id, w, v, b), rest);
      TotalConcat(id, w, v, b, rest);
      WireConcat(w, b, rest);
    }
  }

  lemma TrackFramed(p: Parser, w: Wire, v: View)
    requires Track(p, w, v)
    ensures Framed(w, v)
  {
  }

  /** After the END_REQUEST header no payload is added, whatever else arrives. */
  lemma FrozenStays(id: nat, w: Wire, t: View, more: Bytes)
    requires Framed(w, t) && Frozen(t)
    ensures var t1 := Total(id, w, t, more); Frozen(t1) && t1.out == t.out
  {
    hide Total;
    TotalGrows(id, w, t, more);
    if !t.done {
      EndingStays(id, w, t, more);
    }
  }

  lemma LedgerReceive(declared: int, t: View, t1: View, p: Parser, w: Wire, v: View, c: Client, input: Bytes)
    requires Ledger(declared, t, p, w, v, c) && Extends(t, t1)
    requires Frozen(t) ==> Frozen(t1) && t1.out == t.out
    ensures Ledger(declared, t1, p, w, v, c.(input := input))
  {
    hide Streams, Phase;
  }

  lemma BooksReceive(id: nat, declared: int, t: View, p: Parser, w: Wire, v: View, c: Client, src: Bytes, more: Bytes)
    requires Books(id, declared, t, p, w, v, c, src)
    ensures var t1 := Total(id, WireAfter(w, src), t, more);
            Books(id, declared, t1, p, w, v, c.(input := src + more), src + more)
  {
    hide Total, WireAfter, Track, Agrees, Ledger;
    var w1 := WireAfter(w, src);
    TotalConcat(id, w, v, src, more);
    TotalGrows(id, w1, t, more);
    TrackFramed(p, w, v);
    FramedBytes(id, w, v, src);
    if Frozen(t) {
      FrozenStays(id, w1, t, more);
    }
    LedgerReceive(declared, t, Total(id, w1, t, more), p, w, v, c, src + more);
  }

  lemma BooksValid(id: nat, declared: int, t: View, p: Parser, w: Wire, v: View, c: Client, src: Bytes)
    requires Books(id, declared, t, p, w, v, c, src)
    ensures p.Valid() && c.input == src && c.status.Active? && c.delivered == v.out <= t.out && c.forwarded <= t.err
    ensures declared >= 0 ==> c.available + |c.delivered| == declared
    ensures declared < 0 && c.available == 0 ==> c.delivered == t.out
    ensures Extends(v, t)
  {
    hide Total;
    TotalGrows(id, w, v, src);
  }

  lemma BooksSink(id: nat, declared: int, t: View, p: Parser, w: Wire, v: View, c: Client, src: Bytes, sink: Sink)
    requires Books(id, declared, t, p, w, v, c, src)
    ensures Books(id, declared, t, p, w, v, c.(sink := sink), src)
  {
    hide Total, Track, Streams, Phase;
  }

  lemma HandlersSane(id: nat)
    ensures Sane(DirectHandler(id)) && Sane(FillHandler(id)) && Sane(ConsumeHandler(id)) && Sane(AnalysisHandler(id))
  {
    DirectFits(id);
    FillFits(id);
    ConsumeFits(id);
    AnalysisFits(id);
  }

  /** The client starts inside the STDOUT record whose first part held the headers. */
  function FirstView(left: nat): View {
    View([], [], NoLate, if left > 0 then Out else Idle, false)
  }

  function FirstClient(input: Bytes, declared: int, sink: Sink): (c: Client)
    ensures c.input == input && c.delivered == [] && c.forwarded == [] && c.status.Active? && c.sink == sink
  {
    Client(input, declared, false, false, 0, [], [], sink, Active)
  }

  lemma BooksBegin(id: nat, declared: int, p: Parser, w: Wire, v: View, c: Client)
    requires p.inFrame && w == Inside(p.remaining, p.skip) && v == FirstView(p.remaining + p.skip)
    requires c == FirstClient(c.input, declared, c.sink)
    ensures Books(id, declared, Total(id, w, v, c.input), p, w, v, c, c.input)
  {
    hide Total;
    TotalGrows(id, w, v, c.input);
  }

  /** What the client has consumed is what the parser used. */
  lemma {:induction false} DirectInput(id: nat, p: Parser, c: Client, src: Bytes)
    requires p.Valid() && c.input == src && Sane(DirectHandler(id))
    ensures var o := Drive(p, src, DirectHandler(id), c); o.state.input == src[o.used..]
    decreases |src|, p.Rank()
  {
    var h := DirectHandler(id);
    var r := Step(p, src, h, c);
    DirectInputStep(id, p, c, src);
    if r.halt.None? {
      hide Step, DirectHandler, Sane;
      var rest := src[r.used..];
      DirectInput(id, r.parser, r.state, rest);
      var n := Drive(r.parser, rest, h, r.state).used;
      assert rest[n..] == src[r.used + n..];
    }
  }

  lemma DirectInputStep(id: nat, p: Parser, c: Client, src: Bytes)
    requires p.Valid() && c.input == src && Sane(DirectHandler(id))
    ensures var r := Step(p, src, DirectHandler(id), c); r.state.input == src[r.used..]
  {
    hide DirectPayload, DirectHeader, DirectEnd;
  }

  /** If the analysis reports an end, the END_REQUEST record is complete. */
  lemma ReportMeansDone(id: nat, declared: int, t: View, p: Parser, w: Wire, v: View, c: Client, src: Bytes)
    requires Books(id, declared, t, p, w, v, c, src) && p.Valid()
    ensures var a := Lookahead(id, p, c);
            && (a.endOffset > 0 ==> t.done)
            && (!c.endRequest ==> |v.out| + a.total == |t.out|)
  {
    hide Drive, Sane, AnalysisHandler, Total, Track, Agrees, AnalysisLedger, AnalysisParser, NotDoneBefore, WireAfter;
    HandlersSane(id);
    AnalysisParserValid(p, c.stderr);
    var a0 := StartAnalysis();
    TotalGrows(id, w, v, src);
    if !c.endRequest {
      AnalysisBegins(id, declared, t, p, w, v, c, src, a0);
      AnalyseBuffer(id, t, AnalysisParser(p, c.stderr), w, v, src, a0);
    } else if !v.done {
      var v0 := Missed(v);
      BlindBegins(id, declared, t, p, w, v, c, src, a0);
      AnalyseBuffer(id, Total(id, w, v0, src), AnalysisParser(p, c.stderr), w, v0, src, a0);
      var left := p.remaining + p.skip;
      if left <= |src| {
        EndingEnds(id, p, w, v, src);
        TotalSplit(id, w, v, src, left);
        TotalGrows(id, WireAfter(w, src[..left]), Total(id, w, v, src[..left]), src[left..]);
      } else {
        TrackFacts(p, w, v);
        TotalDropped(id, w, v0, src);
        assert src[..|src|] == src;
      }
    }
  }

  class ResponseBody {
    const id: nat
    const parser: FcgiParser
    var c: Client
    var released: bool
    var reuse: bool

    // What was received since the body began, what it means, and where the parser stands.
    ghost const declared: int
    ghost var meaning: View
    ghost var wire: Wire
    ghost var view: View

    /** After the client ended nothing more is promised. */
    ghost predicate Valid()
      reads this, parser
    {
      && (released ==> meaning.done)
      && (c.status.Active? ==> Books(id, declared, meaning, parser.Value(), wire, view, c, c.input))
    }

    /** Everything listed, everything forwarded: the state right after a successful fill. */
    ghost predicate ReadyToConsume()
      reads this
    {
      Filled(declared, meaning, view, c) && Settled(meaning, released) && !c.endRequest
    }

    constructor (id: nat, declared: int, remaining: nat, skip: nat, input: Bytes)
      ensures Valid() && c.status.Active? && !released
      ensures c.input == input && c.delivered == [] && c.forwarded == []
      ensures this.id == id && this.declared == declared && fresh(parser)
      ensures wire == Inside(remaining, skip) && view == FirstView(remaining + skip) && meaning == Total(id, wire, view, input)
      ensures c == FirstClient(input, declared, Greedy)
      ensures parser.inFrame && parser.remaining == remaining && parser.skip == skip
    {
      hide Books, Total, FirstView, FirstClient;
      var p := new FcgiParser.Within(remaining, skip);
      var c0 := FirstClient(input, declared, Greedy);
      var w, v := Inside(remaining, skip), FirstView(remaining + skip);
      this.id, this.declared, parser := id, declared, p;
      c, released, reuse := c0, false, false;
      wire, view, meaning := w, v, Total(id, w, v, input);
      new;
      BooksBegin(id, declared, parser.Value(), wire, view, c);
    }

    /** The socket delivers more bytes. */
    method Receive(more: Bytes)
      requires Valid() && c.status.Active? && !released
      modifies this
      ensures Valid() && !released && c == old(c).(input := old(c).input + more)
      ensures Extends(old(meaning), meaning)
      ensures view == old(view) && wire == old(wire) && parser.Value() == old(parser.Value())
      ensures meaning == Total(id, wire, view, c.input)
    {
      BooksReceive(id, declared, meaning, parser.Value(), wire, view, c, c.input, more);
      TotalGrows(id, WireAfter(wire, c.input), meaning, more);
      meaning := Total(id, WireAfter(wire, c.input), meaning, more);
      c := c.(input := c.input + more);
      assert Books(id, declared, meaning, parser.Value(), wire, view, c, c.input);
    }

    /**
     The bucket list holds the STDOUT payload that was not consumed yet.  The parser
     itself is not touched, and only STDERR payload not forwarded before is forwarded.
     */
    method FillBucketList() returns (list: Bytes, more: bool, failed: bool)
      requires Valid() && c.status.Active?
      modifies this
      ensures Valid()
      ensures parser.Value() == old(parser.Value())
      ensures meaning == old(meaning) && view == old(view) && wire == old(wire)
      ensures c.delivered == old(c.delivered) && c.input == old(c.input) && c.endRequest == old(c.endRequest)
      ensures more == !released
      ensures if old(c.available == 0 && released) then !failed && list == [] && c == old(c)
              else failed <==> BadLength(declared, meaning)
      ensures failed <==> !c.status.Active?
      ensures !failed && !old(c.available == 0 && released) ==>
                && c.delivered + list == meaning.out
                && c.forwarded == meaning.err
                && (released <==> meaning.done)
                && (!meaning.kind.Ending? && !c.endRequest ==> ReadyToConsume())
    {
      hide Drive, Total, Track, Agrees, WireAfter, Streams, Phase;
      BooksValid(id, declared, meaning, parser.Value(), wire, view, c, c.input);
      if c.available == 0 && released {
        return [], false, false;
      }
      HandlersSane(id);
      FillYields(id, declared, meaning, parser.Value(), wire, view, c, c.input);
      var copy := new FcgiParser.Copy(parser);
      var result, f := copy.Feed(c.input, FillHandler(id), StartFill(c));
      if result == CLOSED {
        c := c.(status := Aborted);
        return [], !released, true;
      }
      c := f.client;
      if f.release && !released {
        released, reuse := true, f.reuse;
      }
      list, more, failed := f.list, !released, false;
    }

    /** The assertion that all STDERR payload on the way was forwarded is going to hold. */
    ghost predicate NoLateStderr(n: nat)
      reads this
    {
      !(meaning.done && |c.delivered| + n == |meaning.out| && meaning.late == LateErr)
    }

    /** Takes the next `n` bytes of the list; the end is reported exactly with the last one. */
    method ConsumeBucketList(n: nat) returns (consumed: nat, eof: bool)
      requires Valid() && c.status.Active? && ReadyToConsume()
      requires |c.delivered| + n <= |meaning.out| && NoLateStderr(n)
      modifies this, parser
      ensures Valid()
      ensures meaning == old(meaning) && released == old(released)
      ensures old(c.available) == 0 ==> n == 0
      ensures consumed == n
      ensures c.delivered == meaning.out[..old(|c.delivered|) + n]
      ensures c.forwarded == meaning.err
      ensures eof <==> meaning.done && c.delivered == meaning.out
      ensures eof ==> c.status.Eof? && Finished(declared, meaning, c)
      ensures !eof ==> c.status.Active? && ReadyToConsume()
    {
      hide Drive, Total, Track, Agrees, WireAfter, Streams, Phase;
      BooksValid(id, declared, meaning, parser.Value(), wire, view, c, c.input);
      HandlersSane(id);
      ConsumeEntry(id, declared, meaning, n, parser.Value(), wire, view, c, c.input);
      ConsumeTakes(id, declared, meaning, n, parser.Value(), wire, view, c, c.input, released);
      ghost var o := Drive(parser.Value(), c.input, ConsumeHandler(id), StartConsume(c, n, released));
      ghost var w1, v1 := WireAfter(wire, c.input[..o.used]), Total(id, wire, view, c.input[..o.used]);
      var _, k := parser.Feed(c.input, ConsumeHandler(id), StartConsume(c, n, released));
      assert k.asserted;
      c, wire, view := k.client, w1, v1;
      consumed, eof := k.total, k.client.endRequest;
      if eof {
        c := c.(status := Eof);
      } else {
        BooksValid(id, declared, meaning, parser.Value(), wire, view, c, c.input);
      }
    }

    /**
     Runs the look-ahead on a copy of the parser: unless the END_REQUEST header was fed before, it counts the
     STDOUT payload that is left and finds the end of the END_REQUEST record exactly if that is complete.
     */
    method AnalyseBuffer() returns (a: Analysis)
      requires Valid() && c.status.Active?
      ensures a == Lookahead(id, parser.Value(), c)
      ensures !c.endRequest ==> Analysed(id, meaning, wire, view, c.input, a)
      ensures a.endOffset > 0 ==> meaning.done
    {
      hide Drive, Books, AnalysisParser, Analysed;
      BooksValid(id, declared, meaning, parser.Value(), wire, view, c, c.input);
      ReportMeansDone(id, declared, meaning, parser.Value(), wire, view, c, c.input);
      if !c.endRequest {
        LookaheadAnalyses(id, declared, meaning, parser.Value(), wire, view, c, c.input);
      }
      HandlersSane(id);
      AnalysisParserValid(parser.Value(), c.stderr);
      var copy := new FcgiParser.Copy(parser);
      if c.stderr {
        copy.SkipCurrent();
      }
      var _, r := copy.Feed(c.input, AnalysisHandler(id), StartAnalysis());
      a := r;
    }

    /** Feeds the whole input to the parser. */
    method ConsumeInput(sink: Sink) returns (result: FeedResult)
      requires Valid() && c.status.Active?
      modifies this, parser
      ensures Valid()
      ensures meaning == old(meaning) && released == old(released) && reuse == old(reuse)
      ensures result == CLOSED <==> !c.status.Active?
      ensures result == CLOSED ==> Finished(declared, meaning, c)
      ensures sink.Greedy? && meaning.done && !BadLength(declared, meaning) ==>
                result == CLOSED && c.status.Eof?
      ensures var o := Direct(id, old(parser.Value()), old(c).(sink := sink));
              result == o.result && c == o.state && c.input == old(c.input)[o.used..] && parser.Value() == o.parser
    {
      hide Drive, Total, Track, Agrees, WireAfter, Streams, Phase, Ledger, BadLength, EndsAt;
      HandlersSane(id);
      BooksValid(id, declared, meaning, parser.Value(), wire, view, c, c.input);
      ghost var p, src := parser.Value(), c.input;
      var c0 := c.(sink := sink);
      BooksSink(id, declared, meaning, p, wire, view, c, src, sink);
      DriveDirect(id, declared, meaning, p, wire, view, c0, src);
      DirectInput(id, p, c0, src);
      if sink.Greedy? && meaning.done && !BadLength(declared, meaning) {
        DirectFinishes(id, declared, meaning, p, wire, view, c0, src);
      }
      ghost var o := Drive(p, src, DirectHandler(id), c0);
      result, c := parser.Feed(c.input, DirectHandler(id), c0);
      wire, view := WireAfter(wire, src[..o.used]), Total(id, wire, view, src[..o.used]);
      if result != CLOSED {
        BooksValid(id, declared, meaning, parser.Value(), wire, view, c, c.input);
      }
    }

    /**
     The direct path: look ahead for the end of the response, give back the socket
     if it is there, feed the parser.  Whatever the consumer does, the socket is
     given back exactly if the response is complete, and it is offered for reuse
     exactly if the response ends with the buffer; unless the END_REQUEST header
     was fed in an earlier call.
     */
    method OnBufferedData(sink: Sink) returns (result: FeedResult)
      requires Valid() && c.status.Active? && c.input != []
      modifies this, parser
      ensures Valid()
      ensures meaning == old(meaning)
      ensures old(released) ==> released && reuse == old(reuse)
      ensures result == CLOSED <==> !c.status.Active?
      ensures result == CLOSED ==> Finished(declared, meaning, c)
      ensures !old(released) && !old(c.endRequest) ==>
                && (released <==> meaning.done)
                && (released ==> (reuse <==> EndsAt(id, old(wire), old(view), old(c.input), |old(c.input)|)))
      ensures !old(released) && !old(c.endRequest) && sink.Greedy? && c.status.Eof? ==>
                released && (reuse <==> c.input == [])
      ensures !old(released) ==>
                var a := Lookahead(id, old(parser.Value()), old(c));
                && (released <==> 0 < a.endOffset <= |old(c.input)|)
                && (released ==> (reuse <==> a.endOffset == |old(c.input)|))
      ensures var o := Direct(id, old(parser.Value()), old(c).(sink := sink));
              result == o.result && c == o.state && c.input == old(c.input)[o.used..] && parser.Value() == o.parser
    {
      hide Books, Finished, BadLength, Lookahead, Direct, EndsAt, Total;
      ghost var p, src, c0 := parser.Value(), c.input, c;
      BooksValid(id, declared, meaning, p, wire, view, c0, src);
      ghost var w0, v0 := wire, view;
      if !released {
        var a := AnalyseBuffer();
        if !c.endRequest && a.endOffset > 0 {
          ReportIsExact(id, meaning, wire, view, src, a);
        }
        if 0 < a.endOffset <= |c.input| {
          released, reuse := true, a.endOffset == |c.input|;
        }
      }
      result := ConsumeInput(sink);
      if sink.Greedy? && !c0.endRequest && c.status.Eof? {
        EofMeansExact(id, declared, meaning, p, w0, v0, c0, src, sink, c);
      }
    }
  }

  lemma LookaheadAnalyses(id: nat, declared: int, t: View, p: Parser, w: Wire, v: View, c: Client, src: Bytes)
    requires Books(id, declared, t, p, w, v, c, src) && p.Valid() && !c.endRequest
    ensures Analysed(id, t, w, v, src, Lookahead(id, p, c))
  {
    hide Drive, Sane, AnalysisHandler, Position, Ledger, AnalysisLedger, AnalysisParser, Analysed;
    HandlersSane(id);
    AnalysisParserValid(p, c.stderr);
    var a0 := StartAnalysis();
    AnalysisBegins(id, declared, t, p, w, v, c, src, a0);
    AnalyseBuffer(id, t, AnalysisParser(p, c.stderr), w, v, src, a0);
  }

  lemma ReportIsExact(id: nat, t: View, w: Wire, v: View, src: Bytes, a: Analysis)
    requires Analysed(id, t, w, v, src, a) && a.endOffset > 0
    ensures a.endOffset <= |src|
    ensures EndsAt(id, w, v, src, |src|) <==> a.endOffset == |src|
  {
    hide Total, NotDoneBefore;
    if EndsAt(id, w, v, src, |src|) {
      EndsAtOnce(id, w, v, src, |src|, a.endOffset);
    }
  }

  ghost function Lookahead(id: nat, p: Parser, c: Client): Analysis
    requires p.Valid()
  {
    HandlersSane(id);
    AnalysisParserValid(p, c.stderr);
    Drive(AnalysisParser(p, c.stderr), c.input, AnalysisHandler(id), StartAnalysis()).state
  }

  ghost function Direct(id: nat, p: Parser, c: Client): (o: Outcome<Client>)
    requires p.Valid()
    ensures o.used <= |c.input|
  {
    HandlersSane(id);
    Drive(p, c.input, DirectHandler(id), c)
  }

  lemma EofLength(declared: int, t: View, c: Client)
    requires Finished(declared, t, c) && c.status.Eof?
    ensures t.done && !BadLength(declared, t)
  {
  }

  lemma EofMeansExact(id: nat, declared: int, t: View, p: Parser, w: Wire, v: View, c: Client, src: Bytes, sink: Sink, c1: Client)
    requires Books(id, declared, t, p, w, v, c, src) && p.Valid() && !c.endRequest && sink.Greedy?
    requires Finished(declared, t, c1) && c1.status.Eof?
    ensures var a, o := Lookahead(id, p, c), Direct(id, p, c.(sink := sink));
            0 < a.endOffset <= |src| && o.used == a.endOffset
  {
    hide Drive, Sane, DirectHandler, AnalysisHandler, BadLength, AnalysisParser, Finished, Position, Ledger;
    HandlersSane(id);
    EofLength(declared, t, c1);
    BooksSink(id, declared, t, p, w, v, c, src, sink);
    LookAheadExact(id, declared, t, p, w, v, c.(sink := sink), src);
  }

  lemma AnalysisParserValid(p: Parser, stderr: bool)
    requires p.Valid()
    ensures AnalysisParser(p, stderr).Valid()
    ensures AnalysisParser(p, stderr) == if stderr then p.SkipCurrent() else p
  {
  }
}
