/**
 The bucket path of the FastCGI client: filling a bucket list looks at the input
 without consuming it, consuming takes a number of bytes off it.
 */
module FcgiBuckets {
  import opened Octets
  import opened FcgiWire
  import opened FcgiParser
  import opened FcgiDecode
  import opened FcgiView
  import opened FcgiClient

  datatype Fill = Fill(
    client: Client,
    available: int,
    list: Bytes,
    skip: nat,
    stderr: bool,
    foundEnd: bool,
    release: bool,
    reuse: bool,
    status: Status)

  function StartFill(c: Client): Fill {
    Fill(c, c.available, [], c.skipStderr, c.stderr, c.endRequest, false, false, Active)
  }

  function FillHeader(id: nat, f: Fill, rtype: nat, rid: nat): Reply<Fill> {
    if rid != id then Reply(Skip, f)
    else if f.foundEnd then Reply(Stop, f.(reuse := false))
    else if rtype == STDOUT then Reply(Continue, f.(stderr := false))
    else if rtype == STDERR then Reply(Continue, f.(stderr := true))
    else if rtype == END_REQUEST then
      if f.available > 0 then Reply(Closed, f.(status := Premature))
      else Reply(Skip, f.(foundEnd := true,
                          client := if f.client.available < 0 then f.client.(available := |f.list|) else f.client))
    else Reply(Skip, f)
  }

  function FillStderr(f: Fill, d: Bytes): Fill {
    if |d| > f.skip then
      f.(skip := 0,
         client := f.client.(forwarded := f.client.forwarded + d[f.skip..],
                             skipStderr := f.client.skipStderr + |d| - f.skip))
    else
      f.(skip := f.skip - |d|)
  }

  function FillPayload(f: Fill, d: Bytes): (r: PayloadReply<Fill>)
    ensures r.taken <= |d|
    ensures r.result.Continue? || (r.result.Closed? && r.taken == 0)
  {
    if f.stderr then
      PayloadReply(Continue, |d|, FillStderr(f, d))
    else if 0 <= f.available < |d| then
      PayloadReply(Closed, 0, f.(status := Excess))
    else
      PayloadReply(Continue, |d|,
                   f.(list := f.list + d, available := if f.available >= 0 then f.available - |d| else f.available))
  }

  function FillEnd(f: Fill): Reply<Fill> {
    if f.foundEnd then Reply(Stop, f.(release := true, reuse := true)) else Reply(Continue, f)
  }

  function FillHandler(id: nat): Handler<Fill> {
    Handler((f, t, i) => FillHeader(id, f, t, i),
            (f, d) => FillPayload(f, d),
            f => FillEnd(f),
            (f, n) => f)
  }

  lemma FillFits(id: nat)
    ensures Fits(FillHandler(id), id)
  {
  }

  /** The client's books, kept at the place where the filling started. */
  ghost predicate FillLedger(t: View, v0: View, c0: Client, p: Parser, w: Wire, v: View, f: Fill) {
    && f.status.Active?
    && !f.release
    && v.out == v0.out + f.list
    && Streams(p, w, v, f.stderr)
    && Phase(p, v, f.foundEnd)
    && Forwarded(t, v.err, f.client.forwarded, f.skip)
    && Forwarded(t, v0.err, f.client.forwarded, f.client.skipStderr)
    && (if c0.available >= 0 then f.available >= 0 && f.available + |f.list| == c0.available
        else f.available == c0.available)
    && (f.foundEnd ==> f.available <= 0 && Frozen(t) && v.out == t.out)
    && f.client == c0.(forwarded := f.client.forwarded, skipStderr := f.client.skipStderr,
                       available := if f.foundEnd && c0.available < 0 then |t.out| - |v0.out| else c0.available)
  }

  /** The list would not fit the declared length. */
  ghost predicate FillFailed(t: View, v0: View, c0: Client, f: Fill) {
    match f.status
    case Excess => 0 <= c0.available < |t.out| - |v0.out|
    case Premature => Frozen(t) && |t.out| - |v0.out| < c0.available
    case _ => false
  }

  lemma FillStderrMore(t: View, v0: View, err: Bytes, f: Fill, d: Bytes)
    requires Forwarded(t, err, f.client.forwarded, f.skip) && err + d <= t.err
    requires Forwarded(t, v0.err, f.client.forwarded, f.client.skipStderr)
    ensures var f1 := FillStderr(f, d);
            && Forwarded(t, err + d, f1.client.forwarded, f1.skip)
            && Forwarded(t, v0.err, f1.client.forwarded, f1.client.skipStderr)
  {
    if |d| > f.skip {
      ForwardBytes(t.err, err, f.client.forwarded, f.skip, d);
    }
  }

  lemma FillLedgerPayload(t: View, v0: View, c0: Client, p: Parser, w: Wire, v: View, f: Fill, d: Bytes,
                          p1: Parser, w1: Wire, v1: View)
    requires FillLedger(t, v0, c0, p, w, v, f) && p.Valid()
    requires d != [] && |d| <= p.remaining == w.content
    requires FillPayload(f, d).result.Continue? ==>
               && p1 == p.(remaining := p.remaining - |d|) && w1 == w.(content := w.content - |d|)
               && v1 == CloseWhen(SeeData(v, d), |d| == w.content && w.padding == 0)
    requires v.kind.Out? || v.kind.Err?
    requires p.remaining + p.skip == w.content + w.padding
    requires Extends(SeeData(v, d), t)
    ensures var a := FillPayload(f, d);
            if a.result == Closed then FillFailed(t, v0, c0, a.state) else FillLedger(t, v0, c0, p1, w1, v1, a.state)
  {
    assert v0.out + f.list + d == v0.out + (f.list + d);
    if f.stderr {
      FillStderrMore(t, v0, v.err, f, d);
    }
  }

  lemma FillLedgerSkip(t: View, v0: View, c0: Client, p: Parser, w: Wire, v: View, f: Fill, d: Bytes,
                       p1: Parser, w1: Wire, v1: View)
    requires FillLedger(t, v0, c0, p, w, v, f)
    requires p.Valid() && p.remaining == 0 < p.skip == w.content + w.padding && |d| <= p.skip
    requires p1 == p.(skip := p.skip - |d|) && w1.content == w.content - Min(w.content, |d|)
    requires v.kind.Out? ==> w.content == 0
    requires v1 == CloseWhen(SeeData(v, d[..Min(w.content, |d|)]), d != [] && |d| == w.content + w.padding)
    ensures FillLedger(t, v0, c0, p1, w1, v1, f)
  {
    if v.kind.Out? || v.kind.Err? {
      SeeDataNone(v);
    }
  }

  /** The whole list is there, and so is all of STDERR. */
  ghost predicate FillDone(t: View, v0: View, c0: Client, f: Fill) {
    && v0.out + f.list == t.out
    && f.client.forwarded == t.err
    && Forwarded(t, v0.err, f.client.forwarded, f.client.skipStderr)
    && (f.release <==> t.done)
    && (f.release ==> f.reuse)
    && (c0.available >= 0 ==> |f.list| <= c0.available)
    && (c0.available >= 0 && Frozen(t) ==> |f.list| == c0.available)
    && f.client == c0.(forwarded := f.client.forwarded, skipStderr := f.client.skipStderr,
                       available := if Frozen(t) && c0.available < 0 then |f.list| else c0.available)
  }

  lemma FillStops(t: View, v0: View, c0: Client, p: Parser, w: Wire, v: View, f: Fill)
    requires FillLedger(t, v0, c0, p, w, v, f) && Extends(v, t) && p.EndPending() && f.foundEnd
    ensures FillDone(t, v0, c0, FillEnd(f).state)
  {
    hide Streams;
  }

  lemma AfterEnd(p: Parser, w: Wire, v: View, p1: Parser, stderr: bool, ended: bool)
    requires p.EndPending() && v.kind.Idle? && !ended
    requires p1.remaining == p.remaining && p1.skip == p.skip && !p1.inFrame
    ensures Streams(p, w, v, stderr) ==> Streams(p1, w, v, stderr)
    ensures Phase(p, v, ended) ==> Phase(p1, v, ended)
  {
  }

  lemma FillLedgerEnd(t: View, v0: View, c0: Client, p: Parser, w: Wire, v: View, f: Fill, p1: Parser)
    requires FillLedger(t, v0, c0, p, w, v, f) && Extends(v, t)
    requires p.EndPending() && v.kind.Idle?
    requires p1.remaining == p.remaining && p1.skip == p.skip && !p1.inFrame
    ensures var a := FillEnd(f);
            if a.result == Stop then FillDone(t, v0, c0, a.state) else FillLedger(t, v0, c0, p1, w, v, a.state)
  {
    if f.foundEnd {
      FillStops(t, v0, c0, p, w, v, f);
    } else {
      AfterEnd(p, w, v, p1, f.stderr, f.foundEnd);
      hide Streams, Phase, Forwarded;
    }
  }

  lemma FillLedgerHeader(id: nat, rtype: nat, rid: nat, t: View, v0: View, c0: Client, p: Parser, w: Wire, v: View,
                         f: Fill, p1: Parser, w1: Wire, v1: View)
    requires FillLedger(t, v0, c0, p, w, v, f)
    requires !p.inFrame && v.kind.Idle?
    requires KindOf(id, rtype, rid).Ending? ==> Frozen(t) && t.out == v.out
    requires FillHeader(id, f, rtype, rid).result in {Skip, Continue} ==>
               Opened(KindOf(id, rtype, rid), p, v, p1, w1, v1)
    ensures var a := FillHeader(id, f, rtype, rid);
            && a.result != Stop
            && if a.result == Closed then FillFailed(t, v0, c0, a.state) else FillLedger(t, v0, c0, p1, w1, v1, a.state)
  {
    hide OpenedFrame, Phase, Streams, Forwarded;
    var a := FillHeader(id, f, rtype, rid);
    PhaseBetween(p, v, f.foundEnd);
    if a.result != Closed {
      OpenedPhase(KindOf(id, rtype, rid), p, v, p1, w1, v1, f.foundEnd);
      OpenedStreams(KindOf(id, rtype, rid), p, v, p1, w1, v1, a.state.stderr);
    }
  }

  ghost predicate FillOutcome(id: nat, t: View, v0: View, c0: Client, w: Wire, v: View, src: Bytes,
                              p1: Parser, used: nat, f: Fill, halt: Option<FeedResult>)
    requires used <= |src|
  {
    match halt
    case Some(CLOSED) => FillFailed(t, v0, c0, f)
    case Some(STOP) => FillDone(t, v0, c0, f)
    case Some(BLOCKING) => false
    case _ =>
      var w1, v1 := WireAfter(w, src[..used]), Total(id, w, v, src[..used]);
      Position(id, t, p1, w1, v1, src[used..]) && FillLedger(t, v0, c0, p1, w1, v1, f)
  }

  ghost predicate FillStepOutcome(id: nat, t: View, v0: View, c0: Client, w: Wire, v: View, src: Bytes,
                                  r: StepResult<Fill>)
    requires r.used <= |src|
  {
    FillOutcome(id, t, v0, c0, w, v, src, r.parser, r.used, r.state, r.halt)
  }

  lemma FillStepPayload(id: nat, t: View, v0: View, c0: Client, p: Parser, w: Wire, v: View, f: Fill, src: Bytes)
    requires Position(id, t, p, w, v, src) && FillLedger(t, v0, c0, p, w, v, f)
    requires p.Valid() && p.remaining > 0 && Sane(FillHandler(id))
    ensures var r := PayloadStep(p, src, FillHandler(id), f);
            r.used <= |src| && FillStepOutcome(id, t, v0, c0, w, v, src, r)
  {
    hide Total, WireAfter, Track, Agrees, SeeData, FillLedger, FillFailed, FillPayload;
    var h := FillHandler(id);
    FillFits(id);
    TrackFacts(p, w, v);
    var r := PayloadStep(p, src, h, f);
    var w1, v1 := MovePayload(id, t, p, w, v, src, h, f);
    if src == [] {
      assert src[..0] == [] && src[0..] == [];
      NoBytes(w);
      TotalNone(id, w, v);
    } else {
      var d := src[..Min(p.remaining, |src|)];
      OfferedCounts(id, w, v, src, |d|, t);
      FillTakesAll(f, d);
      FillLedgerPayload(t, v0, c0, p, w, v, f, d, r.parser, w1, v1);
    }
  }

  lemma FillTakesAll(f: Fill, d: Bytes)
    ensures FillPayload(f, d).result.Continue? ==> FillPayload(f, d).taken == |d|
  {
  }

  lemma FillStepSkip(id: nat, t: View, v0: View, c0: Client, p: Parser, w: Wire, v: View, f: Fill, src: Bytes)
    requires Position(id, t, p, w, v, src) && FillLedger(t, v0, c0, p, w, v, f)
    requires p.Valid() && p.remaining == 0 && p.skip > 0
    ensures var r := SkipStep(p, src, FillHandler(id), f);
            r.used <= |src| && FillStepOutcome(id, t, v0, c0, w, v, src, r)
  {
    hide Total, WireAfter, Track, Agrees, SeeData, FillLedger;
    TrackFacts(p, w, v);
    var r := SkipStep(p, src, FillHandler(id), f);
    var w1, v1 := MoveSkip(id, t, p, w, v, src, FillHandler(id), f);
    FillLedgerSkip(t, v0, c0, p, w, v, f, src[..r.used], r.parser, w1, v1);
  }

  lemma FillStepEnd(id: nat, t: View, v0: View, c0: Client, p: Parser, w: Wire, v: View, f: Fill, src: Bytes)
    requires Position(id, t, p, w, v, src) && FillLedger(t, v0, c0, p, w, v, f) && p.EndPending() && v.kind.Idle?
    ensures var r := EndStep(p, FillHandler(id), f);
            r.used == 0 && FillStepOutcome(id, t, v0, c0, w, v, src, r)
  {
    hide Total, WireAfter, Track, Agrees, FillLedger, FillDone, Parser.EndPending;
    var r := EndStep(p, FillHandler(id), f);
    TrackFacts(p, w, v);
    TotalGrows(id, w, v, src);
    FillLedgerEnd(t, v0, c0, p, w, v, f, r.parser);
    if !f.foundEnd {
      TrackEnd(p, w, v, r.parser);
      hide *;
      FillGoesOn(id, t, v0, c0, r.parser, w, v, f, src);
    }
  }

  lemma FillGoesOn(id: nat, t: View, v0: View, c0: Client, p: Parser, w: Wire, v: View, f: Fill, src: Bytes)
    requires Position(id, t, p, w, v, src) && FillLedger(t, v0, c0, p, w, v, f)
    ensures FillOutcome(id, t, v0, c0, w, v, src, p, 0, f, None)
    ensures FillOutcome(id, t, v0, c0, w, v, src, p, 0, f, Some(MORE))
  {
    hide Total, WireAfter, Position, FillLedger;
    NoBytes(w);
    TotalNone(id, w, v);
    assert src[..0] == [] && src[0..] == src;
  }

  lemma FillStepHeader(id: nat, t: View, v0: View, c0: Client, p: Parser, w: Wire, v: View, f: Fill, src: Bytes)
    requires Position(id, t, p, w, v, src) && FillLedger(t, v0, c0, p, w, v, f)
    requires p.Valid() && !p.inFrame && |src| >= HEADER_SIZE
    ensures var r := HeaderStep(p, src, FillHandler(id), f);
            r.used == HEADER_SIZE && FillStepOutcome(id, t, v0, c0, w, v, src, r)
  {
    hide Total, WireAfter, Track, Agrees, FillFailed, Be16;
    var h := FillHandler(id);
    FillFits(id);
    TrackFacts(p, w, v);
    TrackBetween(p, w, v);
    var r := HeaderStep(p, src, h, f);
    var w1, v1, kind := MoveHeader(id, t, p, w, v, src, h, f);
    FillLedgerHeader(id, src[1], Be16(src[2], src[3]), t, v0, c0, p, w, v, f, r.parser, w1, v1);
  }

  lemma FillStep(id: nat, t: View, v0: View, c0: Client, p: Parser, w: Wire, v: View, f: Fill, src: Bytes)
    requires Position(id, t, p, w, v, src) && FillLedger(t, v0, c0, p, w, v, f)
    requires p.Valid() && Sane(FillHandler(id))
    ensures FillStepOutcome(id, t, v0, c0, w, v, src, Step(p, src, FillHandler(id), f))
  {
    hide Position, FillLedger, FillOutcome, Total, WireAfter, FillHandler, Parser.EndPending;
    if p.remaining > 0 {
      FillStepPayload(id, t, v0, c0, p, w, v, f, src);
    } else if p.skip > 0 {
      FillStepSkip(id, t, v0, c0, p, w, v, f, src);
    } else if p.inFrame {
      IdleBetween(id, t, p, w, v, src);
      FillStepEnd(id, t, v0, c0, p, w, v, f, src);
    } else if |src| >= HEADER_SIZE {
      FillStepHeader(id, t, v0, c0, p, w, v, f, src);
    } else {
      FillGoesOn(id, t, v0, c0, p, w, v, f, src);
    }
  }

  lemma IdleBetween(id: nat, t: View, p: Parser, w: Wire, v: View, src: Bytes)
    requires Position(id, t, p, w, v, src) && p.remaining == 0 && p.skip == 0
    ensures v.kind.Idle? && (p.inFrame ==> p.EndPending())
  {
  }

  ghost predicate FillDriveOutcome(id: nat, t: View, v0: View, c0: Client, w: Wire, v: View, src: Bytes,
                                   o: Outcome<Fill>)
    requires o.used <= |src|
  {
    FillOutcome(id, t, v0, c0, w, v, src, o.parser, o.used, o.state, Some(o.result))
  }

  lemma FillOutcomeChain(id: nat, t: View, v0: View, c0: Client, w: Wire, v: View, src: Bytes, m: nat, n: nat,
                         p2: Parser, f: Fill, halt: Option<FeedResult>)
    requires m + n <= |src|
    requires FillOutcome(id, t, v0, c0, WireAfter(w, src[..m]), Total(id, w, v, src[..m]), src[m..], p2, n, f, halt)
    ensures FillOutcome(id, t, v0, c0, w, v, src, p2, m + n, f, halt)
  {
    hide Position, FillLedger, FillFailed, FillDone, Total, WireAfter;
    PlaceChain(id, w, v, src, m, n);
  }

  lemma {:induction false} DriveFill(id: nat, t: View, v0: View, c0: Client, p: Parser, w: Wire, v: View, f: Fill, src: Bytes)
    requires Position(id, t, p, w, v, src) && FillLedger(t, v0, c0, p, w, v, f)
    requires p.Valid() && Sane(FillHandler(id))
    ensures FillDriveOutcome(id, t, v0, c0, w, v, src, Drive(p, src, FillHandler(id), f))
    decreases |src|, p.Rank()
  {
    hide Step, Position, FillLedger, Total, WireAfter, FillHandler, Sane, FillDone, FillFailed;
    var h := FillHandler(id);
    var r := Step(p, src, h, f);
    FillStep(id, t, v0, c0, p, w, v, f, src);
    if r.halt.None? {
      var w1, v1, rest := WireAfter(w, src[..r.used]), Total(id, w, v, src[..r.used]), src[r.used..];
      DriveFill(id, t, v0, c0, r.parser, w1, v1, r.state, rest);
      var o := Drive(r.parser, rest, h, r.state);
      FillOutcomeChain(id, t, v0, c0, w, v, src, r.used, o.used, o.parser, o.state, Some(o.result));
    }
  }

  lemma FillBegins(id: nat, declared: int, t: View, p: Parser, w: Wire, v: View, c: Client, src: Bytes)
    requires Books(id, declared, t, p, w, v, c, src)
    ensures FillLedger(t, v, c, p, w, v, StartFill(c))
  {
    hide Total, Track, Agrees;
    assert v.out + [] == v.out;
    TotalGrows(id, w, v, src);
    if c.endRequest {
      EndingFacts(id, t, p, w, v, src);
    }
  }

  lemma EndingFacts(id: nat, t: View, p: Parser, w: Wire, v: View, src: Bytes)
    requires Position(id, t, p, w, v, src) && Phase(p, v, true)
    ensures Frozen(t) && t.out == v.out
  {
    hide Total;
    TotalGrows(id, w, v, src);
    if !v.done {
      EndingAdds(id, p, w, v, src);
    }
  }

  /** What remains is too short for another step, so nothing is missing. */
  lemma FillAll(id: nat, t: View, v0: View, c0: Client, p: Parser, w: Wire, v: View, f: Fill, rest: Bytes)
    requires Position(id, t, p, w, v, rest) && FillLedger(t, v0, c0, p, w, v, f) && Leftover(p, rest)
    requires !p.EndPending()
    ensures FillDone(t, v0, c0, f)
  {
    hide Total, Track, Agrees;
    LeftoverAddsNothing(id, p, w, v, rest);
  }

  /** The result of one call of _FillBucketList() on the whole input. */
  ghost predicate Filled(declared: int, t: View, v: View, c: Client) {
    && c.forwarded == t.err
    && (declared >= 0 ==> |t.out| <= declared)
    && (Frozen(t) ==> c.available == |t.out| - |v.out|)
  }

  /** The list breaks the declared length. */
  ghost predicate BadLength(declared: int, t: View) {
    declared >= 0 && (|t.out| > declared || (Frozen(t) && |t.out| < declared))
  }

  ghost predicate FillResult(id: nat, declared: int, t: View, p: Parser, w: Wire, v: View, c: Client, src: Bytes,
                             o: Outcome<Fill>) {
    if o.result == CLOSED then
      BadLength(declared, t)
    else
      && !BadLength(declared, t)
      && v.out + o.state.list == t.out
      && (o.state.release <==> t.done)
      && o.state.client.endRequest == c.endRequest
      && Books(id, declared, t, p, w, v, o.state.client, src)
      && Filled(declared, t, v, o.state.client)
  }

  lemma FillFailure(declared: int, t: View, v: View, c: Client, f: Fill)
    requires FillFailed(t, v, c, f) && Length(declared, t, c.available, c.delivered) && v.out == c.delivered <= t.out
    ensures BadLength(declared, t)
  {
  }

  lemma FillSuccess(id: nat, declared: int, t: View, p: Parser, w: Wire, v: View, c: Client, src: Bytes, f: Fill)
    requires Books(id, declared, t, p, w, v, c, src) && FillDone(t, v, c, f)
    ensures !BadLength(declared, t)
    ensures Books(id, declared, t, p, w, v, f.client, src) && Filled(declared, t, v, f.client)
  {
    hide Position, Streams, Phase;
  }

  /** A fresh parser has nothing to announce once it asked for more. */
  lemma {:induction false} MoreMeansQuiet<S(!new)>(p: Parser, src: Bytes, h: Handler<S>, s: S)
    requires Sane(h) && p.Valid()
    ensures var o := Drive(p, src, h, s); o.result == MORE ==> !o.parser.EndPending()
    decreases |src|, p.Rank()
  {
    var r := Step(p, src, h, s);
    if r.halt.None? {
      hide Step;
      MoreMeansQuiet(r.parser, src[r.used..], h, r.state);
    }
  }

  /**
   _FillBucketList(), for every input: it yields exactly the STDOUT payload not
   yet consumed, forwards all STDERR not yet forwarded, finds out whether the
   END_REQUEST record is complete, and fails exactly when the length is wrong.
   */
  lemma FillYields(id: nat, declared: int, t: View, p: Parser, w: Wire, v: View, c: Client, src: Bytes)
    requires Books(id, declared, t, p, w, v, c, src) && p.Valid() && Sane(FillHandler(id))
    ensures FillResult(id, declared, t, p, w, v, c, src, Drive(p, src, FillHandler(id), StartFill(c)))
  {
    hide Drive, Sane, FillHandler, StartFill, Position, FillLedger, FillDone, FillFailed, BadLength, Filled, Ledger,
         Total, WireAfter, Leftover, Parser.EndPending, Parser.Valid;
    var h, f0 := FillHandler(id), StartFill(c);
    var o := Drive(p, src, h, f0);
    FillBegins(id, declared, t, p, w, v, c, src);
    DriveFill(id, t, v, c, p, w, v, f0, src);
    if o.result == CLOSED {
      LedgerFacts(declared, t, p, w, v, c);
      PositionFacts(id, t, p, w, v, src);
      FillFailure(declared, t, v, c, o.state);
    } else {
      if o.result == MORE {
        MoreMeansLeftover(p, src, h, f0);
        MoreMeansQuiet(p, src, h, f0);
        FillAll(id, t, v, c, o.parser, WireAfter(w, src[..o.used]), Total(id, w, v, src[..o.used]), o.state, src[o.used..]);
      }
      FillSuccess(id, declared, t, p, w, v, c, src, o.state);
      FillDoneFacts(t, v, c, o.state);
    }
  }

  lemma PositionFacts(id: nat, t: View, p: Parser, w: Wire, v: View, src: Bytes)
    requires Position(id, t, p, w, v, src)
    ensures Extends(v, t)
  {
    hide Total;
    TotalGrows(id, w, v, src);
  }

  lemma LedgerFacts(declared: int, t: View, p: Parser, w: Wire, v: View, c: Client)
    requires Ledger(declared, t, p, w, v, c)
    ensures Length(declared, t, c.available, c.delivered) && v.out == c.delivered
  {
  }

  lemma FillDoneFacts(t: View, v0: View, c0: Client, f: Fill)
    requires FillDone(t, v0, c0, f)
    ensures v0.out + f.list == t.out && (f.release <==> t.done) && f.client.endRequest == c0.endRequest
  {
  }
}
