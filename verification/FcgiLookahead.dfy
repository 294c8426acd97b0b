/**
 The look-ahead analysis: it finds the end of the END_REQUEST record in a buffer
 before the buffer is fed to the client.
 */
module FcgiLookahead {
  import opened Octets
  import opened FcgiWire
  import opened FcgiParser
  import opened FcgiDecode
  import opened FcgiView
  import opened FcgiClient
  import opened FcgiBuckets

  datatype Analysis = Analysis(total: nat, consumed: nat, isEnd: bool, endOffset: nat)

  function AnalysisHeader(id: nat, a: Analysis, rtype: nat, rid: nat): (r: Reply<Analysis>)
    ensures r.result in {Skip, Continue}
  {
    if rid != id then Reply(Skip, a)
    else if rtype == STDOUT then Reply(Continue, a)
    else if rtype == END_REQUEST then Reply(Skip, a.(isEnd := true))
    else Reply(Skip, a)
  }

  function AnalysisEnd(a: Analysis): Reply<Analysis> {
    if a.isEnd then Reply(Stop, a.(endOffset := a.consumed)) else Reply(Continue, a)
  }

  function AnalysisConsumed(a: Analysis, n: nat): Analysis {
    a.(consumed := a.consumed + n)
  }

  function AnalysisPayload(a: Analysis, n: nat): Analysis {
    a.(total := a.total + n)
  }

  function AnalysisHandler(id: nat): Handler<Analysis> {
    Handler((a, t, i) => AnalysisHeader(id, a, t, i),
            (a, d) => PayloadReply(Continue, |d|, AnalysisPayload(a, |d|)),
            a => AnalysisEnd(a),
            (a, n) => AnalysisConsumed(a, n))
  }

  /** The parser copy that the analysis runs: a STDERR payload in progress is skipped. */
  function AnalysisParser(p: Parser, stderr: bool): Parser {
    if stderr then p.SkipCurrent() else p
  }

  function StartAnalysis(): Analysis {
    Analysis(0, 0, false, 0)
  }

  lemma AnalysisFits(id: nat)
    ensures Fits(AnalysisHandler(id), id)
  {
  }

  // Where the record ends.

  /** No shorter prefix reaches the end. */
  ghost predicate NotDoneBefore(id: nat, w: Wire, v: View, src: Bytes, n: nat)
    requires n <= |src|
  {
    forall k: nat :: k < n ==> !Total(id, w, v, src[..k]).done
  }

  /** The END_REQUEST record ends after exactly `n` bytes. */
  ghost predicate EndsAt(id: nat, w: Wire, v: View, src: Bytes, n: nat) {
    n <= |src| && Total(id, w, v, src[..n]).done && NotDoneBefore(id, w, v, src, n)
  }

  lemma EndsAtOnce(id: nat, w: Wire, v: View, src: Bytes, m: nat, n: nat)
    requires EndsAt(id, w, v, src, m) && EndsAt(id, w, v, src, n)
    ensures m == n
  {
    hide Total;
  }

  lemma RestNotDone(id: nat, w: Wire, v: View, src: Bytes, n: nat)
    requires w.Aligned() && !v.done && n <= |src| && n <= w.content + w.padding
    ensures NotDoneBefore(id, w, v, src, n)
  {
    hide Total;
    forall k: nat | k < n
      ensures !Total(id, w, v, src[..k]).done
    {
      TotalDropped(id, w, v, src[..k]);
    }
  }

  lemma HeaderNotDone(id: nat, w: Wire, v: View, src: Bytes)
    requires Between(w) && w.Aligned() && !v.done && |src| >= HEADER_SIZE
    ensures NotDoneBefore(id, w, v, src, HEADER_SIZE)
  {
    hide Total;
    forall k: nat | k < HEADER_SIZE
      ensures !Total(id, w, v, src[..k]).done
    {
      WireCollect(w, src[..k]);
      TotalAll(id, w, v, src[..k]);
      SeeNothing(id, v);
    }
  }

  lemma NotDoneChain(id: nat, w: Wire, v: View, src: Bytes, m: nat, n: nat)
    requires m + n <= |src|
    requires NotDoneBefore(id, w, v, src, m)
    requires NotDoneBefore(id, WireAfter(w, src[..m]), Total(id, w, v, src[..m]), src[m..], n)
    ensures NotDoneBefore(id, w, v, src, m + n)
  {
    hide Total, WireAfter;
    forall k: nat | k < m + n
      ensures !Total(id, w, v, src[..k]).done
    {
      if k >= m {
        PlaceChain(id, w, v, src, m, k - m);
      }
    }
  }

  /** A step of any fitting handler stops at the end of a record. */
  lemma StepNotDone<S(!new)>(id: nat, p: Parser, w: Wire, v: View, src: Bytes, h: Handler<S>, s: S)
    requires Fits(h, id) && Track(p, w, v) && p.Valid() && !v.done
    ensures NotDoneBefore(id, w, v, src, Step(p, src, h, s).used)
  {
    hide Total, NotDoneBefore, Track, Agrees;
    var n := Step(p, src, h, s).used;
    TrackFacts(p, w, v);
    if p.inFrame {
      RestNotDone(id, w, v, src, n);
    } else if n > 0 {
      TrackBetween(p, w, v);
      HeaderNotDone(id, w, v, src);
    } else {
      NothingBefore(id, w, v, src);
    }
  }

  lemma NothingBefore(id: nat, w: Wire, v: View, src: Bytes)
    ensures NotDoneBefore(id, w, v, src, 0)
  {
  }

  // The direct path.

  ghost predicate DirectEnds(id: nat, w: Wire, v: View, src: Bytes, o: Outcome<Client>)
    requires o.used <= |src|
  {
    && NotDoneBefore(id, w, v, src, o.used)
    && (o.result == CLOSED && o.state.status.Eof? ==> Total(id, w, v, src[..o.used]).done)
  }

  /** Past the END_REQUEST record the client does nothing but end. */
  lemma DirectAtEnd(id: nat, p: Parser, c: Client, src: Bytes)
    requires p.EndPending() && c.endRequest && p.Valid() && Sane(DirectHandler(id))
    ensures Drive(p, src, DirectHandler(id), c).used == 0
  {
    hide Parser.Rank;
  }

  lemma DoneFacts(id: nat, declared: int, t: View, p: Parser, w: Wire, v: View, c: Client, src: Bytes)
    requires Books(id, declared, t, p, w, v, c, src)
    ensures v.done ==> p.EndPending() && c.endRequest
    ensures p.EndPending() && c.endRequest ==> v.done
    ensures Track(p, w, v)
    ensures c.status.Active?
  {
    hide Total, Track;
  }

  lemma EofStep(id: nat, p: Parser, c: Client, src: Bytes)
    requires p.Valid() && c.status.Active? && Sane(DirectHandler(id))
    ensures var r := Step(p, src, DirectHandler(id), c);
            r.state.status.Eof? ==> p.EndPending() && c.endRequest && r.used == 0
  {
    hide DirectPayload, DirectHeader, DirectEnd;
  }

  lemma {:induction false} DriveDirectEnds(id: nat, declared: int, t: View, p: Parser, w: Wire, v: View, c: Client, src: Bytes)
    requires Books(id, declared, t, p, w, v, c, src) && p.Valid()
    requires Sane(DirectHandler(id))
    ensures DirectEnds(id, w, v, src, Drive(p, src, DirectHandler(id), c))
    decreases |src|, p.Rank()
  {
    hide Step, Books, Finished, Total, WireAfter, Track, Agrees, DirectHandler, Sane, NotDoneBefore, Parser.EndPending;
    var h := DirectHandler(id);
    var r := Step(p, src, h, c);
    DoneFacts(id, declared, t, p, w, v, c, src);
    EofStep(id, p, c, src);
    NothingBefore(id, w, v, src);
    assert r.used == 0 ==> src[..r.used] == [];
    TotalNone(id, w, v);
    if v.done {
      DirectAtEnd(id, p, c, src);
    } else {
      DirectFits(id);
      StepNotDone(id, p, w, v, src, h, c);
      if r.halt.None? {
        DirectStep(id, declared, t, p, w, v, c, src);
        var w1, v1, rest := WireAfter(w, src[..r.used]), Total(id, w, v, src[..r.used]), src[r.used..];
        DriveDirectEnds(id, declared, t, r.parser, w1, v1, r.state, rest);
        var o := Drive(r.parser, rest, h, r.state);
        NotDoneChain(id, w, v, src, r.used, o.used);
        PlaceChain(id, w, v, src, r.used, o.used);
      }
    }
  }

  // The analysis.

  ghost predicate AnalysisLedger(v0: View, p: Parser, v: View, a: Analysis) {
    && |v.out| == |v0.out| + a.total
    && a.endOffset == 0
    && Phase(p, v, a.isEnd)
    && (p.remaining > 0 ==> v.kind.Out?)
  }

  ghost predicate AnalysisOutcome(id: nat, t: View, v0: View, w: Wire, v: View, src: Bytes, base: nat,
                                  p1: Parser, used: nat, a: Analysis, halt: Option<FeedResult>)
    requires used <= |src|
  {
    var w1, v1 := WireAfter(w, src[..used]), Total(id, w, v, src[..used]);
    && a.consumed == base + used
    && Position(id, t, p1, w1, v1, src[used..])
    && match halt
       case Some(STOP) => v1.done && |t.out| == |v0.out| + a.total && a.endOffset == a.consumed
       case Some(MORE) => AnalysisLedger(v0, p1, v1, a)
       case None => AnalysisLedger(v0, p1, v1, a)
       case _ => false
  }

  lemma AnalysisGoesOn(id: nat, t: View, v0: View, p: Parser, w: Wire, v: View, a: Analysis, src: Bytes)
    requires Position(id, t, p, w, v, src) && AnalysisLedger(v0, p, v, a)
    ensures AnalysisOutcome(id, t, v0, w, v, src, a.consumed, p, 0, a, None)
    ensures AnalysisOutcome(id, t, v0, w, v, src, a.consumed, p, 0, a, Some(MORE))
  {
    hide Total, WireAfter, Position, AnalysisLedger;
    NoBytes(w);
    TotalNone(id, w, v);
    assert src[..0] == [] && src[0..] == src;
  }

  lemma AnalysisLedgerPayload(v0: View, p: Parser, w: Wire, v: View, a: Analysis, d: Bytes, p1: Parser, v1: View)
    requires AnalysisLedger(v0, p, v, a) && p.Valid()
    requires d != [] && |d| <= p.remaining == w.content && p.remaining + p.skip == w.content + w.padding
    requires p1 == p.(remaining := p.remaining - |d|)
    requires v1 == CloseWhen(SeeData(v, d), |d| == w.content && w.padding == 0)
    ensures AnalysisLedger(v0, p1, v1, AnalysisPayload(a, |d|))
  {
  }

  lemma AnalysisStepPayload(id: nat, t: View, v0: View, p: Parser, w: Wire, v: View, a: Analysis, src: Bytes)
    requires Position(id, t, p, w, v, src) && AnalysisLedger(v0, p, v, a)
    requires p.Valid() && p.remaining > 0 && Sane(AnalysisHandler(id))
    ensures var r := PayloadStep(p, src, AnalysisHandler(id), a);
            r.used <= |src| && AnalysisOutcome(id, t, v0, w, v, src, a.consumed, r.parser, r.used, r.state, r.halt)
  {
    hide Total, WireAfter, Track, Agrees, SeeData, AnalysisLedger;
    var h := AnalysisHandler(id);
    AnalysisFits(id);
    TrackFacts(p, w, v);
    var r := PayloadStep(p, src, h, a);
    if src == [] {
      AnalysisGoesOn(id, t, v0, p, w, v, a, src);
    } else {
      var w1, v1 := MovePayload(id, t, p, w, v, src, h, a);
      AnalysisLedgerPayload(v0, p, w, v, a, src[..r.used], r.parser, v1);
      ConsumedKeeps(v0, r.parser, v1, AnalysisPayload(a, r.used), r.used);
    }
  }

  lemma ConsumedKeeps(v0: View, p: Parser, v: View, a: Analysis, n: nat)
    ensures AnalysisLedger(v0, p, v, AnalysisConsumed(a, n)) == AnalysisLedger(v0, p, v, a)
  {
  }

  lemma AnalysisLedgerSkip(v0: View, p: Parser, w: Wire, v: View, a: Analysis, d: Bytes, p1: Parser, v1: View)
    requires AnalysisLedger(v0, p, v, a)
    requires p.Valid() && p.remaining == 0 < p.skip == w.content + w.padding && |d| <= p.skip
    requires p1 == p.(skip := p.skip - |d|)
    requires v.kind.Out? ==> w.content == 0
    requires v1 == CloseWhen(SeeData(v, d[..Min(w.content, |d|)]), d != [] && |d| == w.content + w.padding)
    ensures AnalysisLedger(v0, p1, v1, a)
  {
    if v.kind.Out? {
      SeeDataNone(v);
    }
  }

  lemma AnalysisStepSkip(id: nat, t: View, v0: View, p: Parser, w: Wire, v: View, a: Analysis, src: Bytes)
    requires Position(id, t, p, w, v, src) && AnalysisLedger(v0, p, v, a)
    requires p.Valid() && p.remaining == 0 && p.skip > 0
    ensures var r := SkipStep(p, src, AnalysisHandler(id), a);
            r.used <= |src| && AnalysisOutcome(id, t, v0, w, v, src, a.consumed, r.parser, r.used, r.state, r.halt)
  {
    hide Total, WireAfter, Track, Agrees, SeeData, AnalysisLedger;
    TrackFacts(p, w, v);
    var r := SkipStep(p, src, AnalysisHandler(id), a);
    var w1, v1 := MoveSkip(id, t, p, w, v, src, AnalysisHandler(id), a);
    AnalysisLedgerSkip(v0, p, w, v, a, src[..r.used], r.parser, v1);
    ConsumedKeeps(v0, r.parser, v1, a, r.used);
  }

  lemma AnalysisLedgerEnd(v0: View, p: Parser, w: Wire, v: View, a: Analysis, p1: Parser)
    requires AnalysisLedger(v0, p, v, a) && p.EndPending() && v.kind.Idle?
    requires p1.remaining == p.remaining && p1.skip == p.skip && !p1.inFrame
    ensures a.isEnd ==> v.done && |v.out| == |v0.out| + a.total
    ensures !a.isEnd ==> AnalysisLedger(v0, p1, v, a)
  {
    if !a.isEnd {
      AfterEnd(p, w, v, p1, false, a.isEnd);
    }
  }

  lemma AnalysisStepEnd(id: nat, t: View, v0: View, p: Parser, w: Wire, v: View, a: Analysis, src: Bytes)
    requires Position(id, t, p, w, v, src) && AnalysisLedger(v0, p, v, a) && p.EndPending() && v.kind.Idle?
    ensures var r := EndStep(p, AnalysisHandler(id), a);
            r.used == 0 && AnalysisOutcome(id, t, v0, w, v, src, a.consumed, r.parser, r.used, r.state, r.halt)
  {
    hide Total, WireAfter, Track, Agrees, AnalysisLedger, Parser.EndPending;
    var r := EndStep(p, AnalysisHandler(id), a);
    PositionFacts(id, t, p, w, v, src);
    TrackEnd(p, w, v, r.parser);
    AnalysisLedgerEnd(v0, p, w, v, a, r.parser);
    NoBytes(w);
    TotalNone(id, w, v);
    assert src[..0] == [] && src[0..] == src;
  }

  lemma AnalysisLedgerHeader(id: nat, rtype: nat, rid: nat, v0: View, p: Parser, v: View, a: Analysis,
                             p1: Parser, w1: Wire, v1: View)
    requires AnalysisLedger(v0, p, v, a) && OpenedFrame(KindOf(id, rtype, rid), p, v, p1, w1, v1)
    requires p1.remaining == if KindOf(id, rtype, rid).Out? then w1.content else 0
    ensures AnalysisLedger(v0, p1, v1, AnalysisHeader(id, a, rtype, rid).state)
  {
    hide Phase;
    OpenedPhase(KindOf(id, rtype, rid), p, v, p1, w1, v1, a.isEnd);
  }

  lemma AnalysisStepHeader(id: nat, t: View, v0: View, p: Parser, w: Wire, v: View, a: Analysis, src: Bytes)
    requires Position(id, t, p, w, v, src) && AnalysisLedger(v0, p, v, a)
    requires p.Valid() && !p.inFrame && |src| >= HEADER_SIZE
    ensures var r := HeaderStep(p, src, AnalysisHandler(id), a);
            r.used == HEADER_SIZE && AnalysisOutcome(id, t, v0, w, v, src, a.consumed, r.parser, r.used, r.state, r.halt)
  {
    hide Total, WireAfter, Track, Agrees, AnalysisLedger, Be16;
    var h := AnalysisHandler(id);
    AnalysisFits(id);
    TrackBetween(p, w, v);
    var r := HeaderStep(p, src, h, a);
    var w1, v1, kind := MoveHeader(id, t, p, w, v, src, h, a);
    ConsumedKeeps(v0, p, v, a, HEADER_SIZE);
    AnalysisLedgerHeader(id, src[1], Be16(src[2], src[3]), v0, p, v, AnalysisConsumed(a, HEADER_SIZE), r.parser, w1, v1);
  }

  lemma AnalysisStep(id: nat, t: View, v0: View, p: Parser, w: Wire, v: View, a: Analysis, src: Bytes)
    requires Position(id, t, p, w, v, src) && AnalysisLedger(v0, p, v, a)
    requires p.Valid() && Sane(AnalysisHandler(id))
    ensures var r := Step(p, src, AnalysisHandler(id), a);
            AnalysisOutcome(id, t, v0, w, v, src, a.consumed, r.parser, r.used, r.state, r.halt)
  {
    hide Position, AnalysisLedger, AnalysisOutcome, Total, WireAfter, AnalysisHandler, Parser.EndPending;
    if p.remaining > 0 {
      AnalysisStepPayload(id, t, v0, p, w, v, a, src);
    } else if p.skip > 0 {
      AnalysisStepSkip(id, t, v0, p, w, v, a, src);
    } else if p.inFrame {
      IdleBetween(id, t, p, w, v, src);
      AnalysisStepEnd(id, t, v0, p, w, v, a, src);
    } else if |src| >= HEADER_SIZE {
      AnalysisStepHeader(id, t, v0, p, w, v, a, src);
    } else {
      AnalysisGoesOn(id, t, v0, p, w, v, a, src);
    }
  }

  lemma AnalysisChain(id: nat, t: View, v0: View, w: Wire, v: View, src: Bytes, base: nat, m: nat, n: nat,
                      p2: Parser, a: Analysis, halt: Option<FeedResult>)
    requires m + n <= |src|
    requires AnalysisOutcome(id, t, v0, WireAfter(w, src[..m]), Total(id, w, v, src[..m]), src[m..], base + m, p2, n, a, halt)
    ensures AnalysisOutcome(id, t, v0, w, v, src, base, p2, m + n, a, halt)
  {
    hide Position, AnalysisLedger, Total, WireAfter;
    PlaceChain(id, w, v, src, m, n);
  }

  lemma AnalysisNext(id: nat, t: View, v0: View, w: Wire, v: View, src: Bytes, base: nat, p1: Parser, used: nat, a: Analysis)
    requires used <= |src| && AnalysisOutcome(id, t, v0, w, v, src, base, p1, used, a, None)
    ensures var w1, v1 := WireAfter(w, src[..used]), Total(id, w, v, src[..used]);
            && a.consumed == base + used
            && Position(id, t, p1, w1, v1, src[used..])
            && AnalysisLedger(v0, p1, v1, a)
  {
    hide Position, AnalysisLedger, Total, WireAfter;
  }

  lemma AnalysisAtEnd(id: nat, v0: View, p: Parser, v: View, a: Analysis, src: Bytes)
    requires AnalysisLedger(v0, p, v, a) && p.Valid() && v.done && Sane(AnalysisHandler(id))
    ensures Drive(p, src, AnalysisHandler(id), a).used == 0
  {
  }

  lemma {:induction false} DriveAnalysis(id: nat, t: View, v0: View, p: Parser, w: Wire, v: View, a: Analysis, src: Bytes)
    requires Position(id, t, p, w, v, src) && AnalysisLedger(v0, p, v, a)
    requires p.Valid() && Sane(AnalysisHandler(id))
    ensures var o := Drive(p, src, AnalysisHandler(id), a);
            && AnalysisOutcome(id, t, v0, w, v, src, a.consumed, o.parser, o.used, o.state, Some(o.result))
            && NotDoneBefore(id, w, v, src, o.used)
    decreases |src|, p.Rank()
  {
    hide Step, Position, AnalysisLedger, AnalysisOutcome, Total, WireAfter, AnalysisHandler, Sane, NotDoneBefore, Track,
         Agrees, Parser.EndPending;
    var h := AnalysisHandler(id);
    var r := Step(p, src, h, a);
    AnalysisStep(id, t, v0, p, w, v, a, src);
    NothingBefore(id, w, v, src);
    if v.done {
      AnalysisAtEnd(id, v0, p, v, a, src);
    } else {
      AnalysisFits(id);
      PositionTracks(id, t, p, w, v, src);
      StepNotDone(id, p, w, v, src, h, a);
    }
    if r.halt.None? {
      var w1, v1, rest := WireAfter(w, src[..r.used]), Total(id, w, v, src[..r.used]), src[r.used..];
      AnalysisNext(id, t, v0, w, v, src, a.consumed, r.parser, r.used, r.state);
      DriveAnalysis(id, t, v0, r.parser, w1, v1, r.state, rest);
      var o := Drive(r.parser, rest, h, r.state);
      AnalysisChain(id, t, v0, w, v, src, a.consumed, r.used, o.used, o.parser, o.state, Some(o.result));
      if !v.done {
        NotDoneChain(id, w, v, src, r.used, o.used);
      }
    }
  }

  lemma PositionTracks(id: nat, t: View, p: Parser, w: Wire, v: View, src: Bytes)
    requires Position(id, t, p, w, v, src)
    ensures Track(p, w, v)
  {
  }

  // What the analysis says about the direct path.

  /** All STDOUT payload is counted, and an offset is reported exactly if the record is complete. */
  ghost predicate Analysed(id: nat, t: View, w: Wire, v: View, src: Bytes, a: Analysis) {
    && |v.out| + a.total == |t.out|
    && if a.endOffset > 0 then t.done && EndsAt(id, w, v, src, a.endOffset) else !t.done
  }

  ghost predicate Fresh(a: Analysis) {
    a.total == 0 && a.consumed == 0 && a.endOffset == 0 && !a.isEnd
  }

  lemma AnalyseBuffer(id: nat, t: View, p: Parser, w: Wire, v: View, src: Bytes, a: Analysis)
    requires Position(id, t, p, w, v, src) && AnalysisLedger(v, p, v, a) && Fresh(a) && !v.done
    requires p.Valid() && Sane(AnalysisHandler(id))
    ensures Analysed(id, t, w, v, src, Drive(p, src, AnalysisHandler(id), a).state)
  {
    hide Drive, Sane, AnalysisHandler, Position, AnalysisLedger, Total, WireAfter, Leftover, NotDoneBefore, Parser.EndPending;
    var h := AnalysisHandler(id);
    var o := Drive(p, src, h, a);
    DriveAnalysis(id, t, v, p, w, v, a, src);
    var w1, v1, rest := WireAfter(w, src[..o.used]), Total(id, w, v, src[..o.used]), src[o.used..];
    PositionFacts(id, t, o.parser, w1, v1, rest);
    if o.result == MORE {
      MoreMeansLeftover(p, src, h, a);
      MoreMeansQuiet(p, src, h, a);
      PositionTracks(id, t, o.parser, w1, v1, rest);
      LeftoverIsTotal(id, t, o.parser, w1, v1, rest);
      AnalysisQuiet(v, o.parser, v1, o.state);
    } else {
      assert src[..0] == [];
      TotalNone(id, w, v);
    }
  }

  lemma LeftoverIsTotal(id: nat, t: View, p: Parser, w: Wire, v: View, rest: Bytes)
    requires Position(id, t, p, w, v, rest) && Leftover(p, rest)
    ensures t == v
  {
    hide Total;
    LeftoverAddsNothing(id, p, w, v, rest);
  }

  lemma AnalysisQuiet(v0: View, p: Parser, v: View, a: Analysis)
    requires AnalysisLedger(v0, p, v, a) && !p.EndPending()
    ensures !v.done && a.endOffset == 0 && |v.out| == |v0.out| + a.total
  {
  }

  lemma AnalysisBegins(id: nat, declared: int, t: View, p: Parser, w: Wire, v: View, c: Client, src: Bytes, a: Analysis)
    requires Books(id, declared, t, p, w, v, c, src) && Fresh(a) && !c.endRequest
    ensures var p0 := AnalysisParser(p, c.stderr);
            p0.Valid() && Position(id, t, p0, w, v, src) && AnalysisLedger(v, p0, v, a) && !v.done
  {
    hide Total;
  }

  lemma DirectFinishes(id: nat, declared: int, t: View, p: Parser, w: Wire, v: View, c: Client, src: Bytes)
    requires Books(id, declared, t, p, w, v, c, src) && p.Valid() && Sane(DirectHandler(id))
    requires c.sink.Greedy? && t.done && !BadLength(declared, t)
    ensures var o := Drive(p, src, DirectHandler(id), c);
            && o.result == CLOSED && o.state.status.Eof? && o.state.delivered == t.out
            && EndsAt(id, w, v, src, o.used)
  {
    hide Drive, Sane, DirectHandler, Books, Total, WireAfter, Leftover, NotDoneBefore, Parser.EndPending;
    var h := DirectHandler(id);
    var o := Drive(p, src, h, c);
    DriveDirect(id, declared, t, p, w, v, c, src);
    DriveGreedy(id, p, c, src);
    DriveDirectEnds(id, declared, t, p, w, v, c, src);
    if o.result == MORE {
      var w1, v1, rest := WireAfter(w, src[..o.used]), Total(id, w, v, src[..o.used]), src[o.used..];
      MoreMeansLeftover(p, src, h, c);
      MoreMeansQuiet(p, src, h, c);
      BooksQuiet(id, declared, t, o.parser, w1, v1, o.state, rest);
    }
  }

  lemma BooksQuiet(id: nat, declared: int, t: View, p: Parser, w: Wire, v: View, c: Client, rest: Bytes)
    requires Books(id, declared, t, p, w, v, c, rest) && Leftover(p, rest) && !p.EndPending()
    ensures !t.done
  {
    hide Total, Track;
    LeftoverIsTotal(id, t, p, w, v, rest);
  }

  /** The analysis of a buffer, and what the client does when it is fed that buffer. */
  ghost predicate Exactly(c: Client, a: Analysis, o: Outcome<Client>) {
    && o.result == CLOSED
    && o.state.status.Eof?
    && o.used == a.endOffset
    && |o.state.delivered| == |c.delivered| + a.total
  }

  /**
   The look-ahead is exact.  If it reports an end, then feeding the same buffer to
   a consumer that never blocks finishes after exactly that many bytes, having
   delivered exactly the reported amount of STDOUT payload.
   */
  lemma LookAheadExact(id: nat, declared: int, t: View, p: Parser, w: Wire, v: View, c: Client, src: Bytes)
    requires Books(id, declared, t, p, w, v, c, src) && p.Valid()
    requires Sane(DirectHandler(id)) && Sane(AnalysisHandler(id))
    requires c.sink.Greedy? && !c.endRequest && !BadLength(declared, t)
    ensures var a := Drive(AnalysisParser(p, c.stderr), src, AnalysisHandler(id), StartAnalysis()).state;
            && (a.endOffset > 0 <==> t.done)
            && (a.endOffset > 0 ==> Exactly(c, a, Drive(p, src, DirectHandler(id), c)))
  {
    hide Drive, Sane, DirectHandler, AnalysisHandler, Position, Total, EndsAt, BadLength, AnalysisLedger, AnalysisParser;
    var a0 := StartAnalysis();
    AnalysisBegins(id, declared, t, p, w, v, c, src, a0);
    var p0 := AnalysisParser(p, c.stderr);
    AnalyseBuffer(id, t, p0, w, v, src, a0);
    if t.done {
      DirectFinishes(id, declared, t, p, w, v, c, src);
      EndsAtOnce(id, w, v, src, Drive(p0, src, AnalysisHandler(id), a0).state.endOffset,
                 Drive(p, src, DirectHandler(id), c).used);
      LedgerFacts(declared, t, p, w, v, c);
    }
  }

  /** Somebody else's record, to those who missed its header. */
  function Missed(v: View): View {
    v.(kind := Idle)
  }

  lemma BlindBegins(id: nat, declared: int, t: View, p: Parser, w: Wire, v: View, c: Client, src: Bytes, a: Analysis)
    requires Books(id, declared, t, p, w, v, c, src) && Fresh(a) && c.endRequest && !p.EndPending()
    ensures var p0, v0 := AnalysisParser(p, c.stderr), Missed(v);
            && p0.Valid() && Position(id, Total(id, w, v0, src), p0, w, v0, src)
            && AnalysisLedger(v0, p0, v0, a) && !v0.done
  {
    hide Total;
  }

  lemma EndingEnds(id: nat, p: Parser, w: Wire, v: View, src: Bytes)
    requires Track(p, w, v) && v.kind.Ending? && !v.done && p.remaining + p.skip <= |src|
    ensures Total(id, w, v, src[..p.remaining + p.skip]).done
    ensures NotDoneBefore(id, w, Missed(v), src, p.remaining + p.skip)
    ensures !Total(id, w, Missed(v), src[..p.remaining + p.skip]).done
  {
    hide Total, NotDoneBefore;
    var left := p.remaining + p.skip;
    TotalDropped(id, w, v, src[..left]);
    TotalDropped(id, w, Missed(v), src[..left]);
    RestNotDone(id, w, Missed(v), src, left);
  }

  /**
   Once the header of the END_REQUEST record was fed in an earlier call, the
   analysis no longer knows that it is inside that record.  Any end it then
   reports lies beyond the one the client stops at.
   */
  lemma LookAheadBlind(id: nat, declared: int, t: View, p: Parser, w: Wire, v: View, c: Client, src: Bytes)
    requires Books(id, declared, t, p, w, v, c, src) && p.Valid()
    requires Sane(DirectHandler(id)) && Sane(AnalysisHandler(id))
    requires c.endRequest && !p.EndPending()
    ensures var a := Drive(AnalysisParser(p, c.stderr), src, AnalysisHandler(id), StartAnalysis()).state;
            a.endOffset > 0 ==> Drive(p, src, DirectHandler(id), c).used < a.endOffset
  {
    hide Drive, Sane, DirectHandler, AnalysisHandler, Total, BadLength, AnalysisLedger, AnalysisParser, Track, Agrees;
    var a0, v0 := StartAnalysis(), Missed(v);
    BlindBegins(id, declared, t, p, w, v, c, src, a0);
    var p0 := AnalysisParser(p, c.stderr);
    AnalyseBuffer(id, Total(id, w, v0, src), p0, w, v0, src, a0);
    DriveDirectEnds(id, declared, t, p, w, v, c, src);
    var a, o := Drive(p0, src, AnalysisHandler(id), a0).state, Drive(p, src, DirectHandler(id), c);
    if p.remaining + p.skip <= |src| {
      EndingEnds(id, p, w, v, src);
    } else {
      TrackFacts(p, w, v);
      RestNotDone(id, w, v0, src, |src|);
      TotalDropped(id, w, v0, src);
      assert src[..|src|] == src;
    }
  }

  // The bucket path offers the socket for reuse without looking at what follows.

  lemma FillDoneFactsAt(t: View, v0: View, c0: Client, p: Parser, w: Wire, v: View, f: Fill)
    requires FillLedger(t, v0, c0, p, w, v, f) && v.done
    ensures p.EndPending() && f.foundEnd
  {
  }

  lemma FillAtEnd(id: nat, p: Parser, f: Fill, src: Bytes)
    requires p.EndPending() && f.foundEnd && p.Valid() && Sane(FillHandler(id))
    ensures var o := Drive(p, src, FillHandler(id), f); o.used == 0 && o.result == STOP
  {
    hide Parser.Rank;
  }

  lemma NoEndYet(id: nat, t: View, v0: View, c0: Client, p: Parser, w: Wire, v: View, f: Fill, src: Bytes)
    requires FillLedger(t, v0, c0, p, w, v, f) && Position(id, t, p, w, v, src) && !v.done
    ensures p.remaining + p.skip == 0 ==> !f.foundEnd
  {
    hide Total, Streams, Forwarded;
  }

  lemma FillNoStop(id: nat, p: Parser, f: Fill, src: Bytes)
    requires p.Valid() && Sane(FillHandler(id)) && (p.remaining + p.skip == 0 ==> !f.foundEnd)
    ensures Step(p, src, FillHandler(id), f).halt != Some(STOP)
  {
    hide FillPayload, Parser.EndPending, Parser.Rank, Parser.SkipCurrent;
  }

  lemma {:induction false} DriveFillEnds(id: nat, t: View, v0: View, c0: Client, p: Parser, w: Wire, v: View, f: Fill, src: Bytes)
    requires Position(id, t, p, w, v, src) && FillLedger(t, v0, c0, p, w, v, f)
    requires p.Valid() && Sane(FillHandler(id))
    ensures var o := Drive(p, src, FillHandler(id), f);
            o.result == STOP ==> EndsAt(id, w, v, src, o.used)
    decreases |src|, p.Rank()
  {
    hide Step, Position, FillLedger, Total, WireAfter, FillHandler, Sane, NotDoneBefore, Track, Agrees, Parser.EndPending;
    var h := FillHandler(id);
    if v.done {
      FillDoneFactsAt(t, v0, c0, p, w, v, f);
      FillAtEnd(id, p, f, src);
      NothingBefore(id, w, v, src);
      TotalNone(id, w, v);
      assert src[..0] == [];
    } else {
      var r := Step(p, src, h, f);
      NoEndYet(id, t, v0, c0, p, w, v, f, src);
      FillNoStop(id, p, f, src);
      if r.halt.None? {
        FillFits(id);
        PositionTracks(id, t, p, w, v, src);
        StepNotDone(id, p, w, v, src, h, f);
        FillStep(id, t, v0, c0, p, w, v, f, src);
        var w1, v1, rest := WireAfter(w, src[..r.used]), Total(id, w, v, src[..r.used]), src[r.used..];
        DriveFillEnds(id, t, v0, c0, r.parser, w1, v1, r.state, rest);
        var o := Drive(r.parser, rest, h, r.state);
        if o.result == STOP {
          NotDoneChain(id, w, v, src, r.used, o.used);
          PlaceChain(id, w, v, src, r.used, o.used);
        }
      }
    }
  }

  /**
   Whenever filling finds the end, it offers the socket for reuse.  That is right
   exactly if the END_REQUEST record ends with the buffer.
   */
  lemma FillReuse(id: nat, declared: int, t: View, p: Parser, w: Wire, v: View, c: Client, src: Bytes)
    requires Books(id, declared, t, p, w, v, c, src) && p.Valid() && Sane(FillHandler(id))
    requires t.done && !BadLength(declared, t)
    ensures var o := Drive(p, src, FillHandler(id), StartFill(c));
            && o.state.release && o.state.reuse
            && (src[o.used..] == [] <==> EndsAt(id, w, v, src, |src|))
  {
    hide Drive, Sane, FillHandler, StartFill, Position, FillLedger, FillFailed, BadLength, Filled, Ledger,
         Total, WireAfter, Leftover, Parser.EndPending, NotDoneBefore;
    var h, f0 := FillHandler(id), StartFill(c);
    var o := Drive(p, src, h, f0);
    FillYields(id, declared, t, p, w, v, c, src);
    FillBegins(id, declared, t, p, w, v, c, src);
    DriveFill(id, t, v, c, p, w, v, f0, src);
    DriveFillEnds(id, t, v, c, p, w, v, f0, src);
    if o.result == MORE {
      MoreMeansLeftover(p, src, h, f0);
      MoreMeansQuiet(p, src, h, f0);
      var w1, v1, rest := WireAfter(w, src[..o.used]), Total(id, w, v, src[..o.used]), src[o.used..];
      LeftoverIsTotal(id, t, o.parser, w1, v1, rest);
      FillDoneFactsAt(t, v, c, o.parser, w1, v1, o.state);
    } else if EndsAt(id, w, v, src, |src|) {
      EndsAtOnce(id, w, v, src, |src|, o.used);
    }
  }
}
