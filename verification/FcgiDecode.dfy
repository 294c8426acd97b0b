/**
 The parser refines the byte automaton: whatever the handlers answer and however
 the stream is cut into calls, record boundaries and record contents are those
 of FcgiWire.
 */
module FcgiDecode {
  import opened Octets
  import opened FcgiWire
  import opened FcgiParser

  /**
   The parser stands where the automaton stands.  Once a handler has asked to
   skip, the parser no longer distinguishes content from padding.
   */
  ghost predicate Agrees(p: Parser, w: Wire) {
    && w.Aligned()
    && p.Valid()
    && p.remaining + p.skip == w.content + w.padding
    && (p.remaining > 0 ==> p.remaining == w.content)
  }

  /** Nothing of the current record was skipped. */
  ghost predicate Exact(p: Parser, w: Wire) {
    Agrees(p, w) && p.remaining == w.content
  }

  function BytesOf(n: Notice): Bytes {
    match n
    case Header(_, _, h) => h
    case Payload(d) => d
    case Dropped(d) => d
    case End => []
  }

  function AllBytes(trace: seq<Notice>): Bytes {
    if trace == [] then [] else BytesOf(trace[0]) + AllBytes(trace[1..])
  }

  /** The reference events a notice stands for; skipped content counts as content. */
  function Erase(w: Wire, n: Notice): seq<Event> {
    match n
    case Header(rtype, id, _) => [Open(rtype, id)]
    case Payload(d) => DataEvents(d)
    case Dropped(d) => DataEvents(d[..Min(w.content, |d|)])
    case End => [Close]
  }

  function EraseAll(w: Wire, trace: seq<Notice>): seq<Event>
    decreases |trace|
  {
    if trace == [] then [] else
    Erase(w, trace[0]) + EraseAll(WireAfter(w, BytesOf(trace[0])), trace[1..])
  }

  lemma TraceOne(w: Wire, n: Notice)
    ensures AllBytes([n]) == BytesOf(n)
    ensures EraseAll(w, [n]) == Erase(w, n)
  {
    assert [n][1..] == [];
  }

  lemma {:induction false} BytesConcat(a: seq<Notice>, b: seq<Notice>)
    ensures AllBytes(a + b) == AllBytes(a) + AllBytes(b)
  {
    if a == [] {
      assert a + b == b;
    } else {
      assert (a + b)[0] == a[0] && (a + b)[1..] == a[1..] + b;
      BytesConcat(a[1..], b);
    }
  }

  lemma {:induction false} EraseConcat(w: Wire, a: seq<Notice>, b: seq<Notice>)
    ensures EraseAll(w, a + b) == EraseAll(w, a) + EraseAll(WireAfter(w, AllBytes(a)), b)
    decreases |a|
  {
    if a == [] {
      assert a + b == b;
    } else {
      assert (a + b)[0] == a[0] && (a + b)[1..] == a[1..] + b;
      var w1 := WireAfter(w, BytesOf(a[0]));
      EraseConcat(w1, a[1..], b);
      WireConcat(w, BytesOf(a[0]), AllBytes(a[1..]));
    }
  }

  /** What the bytes mean, up to an end that was announced late or is still owed. */
  ghost predicate SameMeaning(p: Parser, w: Wire, bytes: Bytes, trace: seq<Notice>, p': Parser) {
    EraseAll(w, trace) + CloseIf(p'.EndPending()) == CloseIf(p.EndPending()) + EventsOf(w, bytes)
  }

  ghost predicate Refines(p: Parser, w: Wire, bytes: Bytes, trace: seq<Notice>, p': Parser) {
    && Agrees(p', WireAfter(w, bytes))
    && AllBytes(trace) == bytes
    && SameMeaning(p, w, bytes, trace, p')
  }

  lemma PayloadRefines(p: Parser, w: Wire, d: Bytes, p': Parser)
    requires Agrees(p, w) && 0 < |d| <= p.remaining
    requires p'.inFrame && p'.remaining + p'.skip == p.remaining + p.skip - |d|
    requires p'.remaining == p.remaining - |d| || p'.remaining == 0
    ensures Refines(p, w, d, [Payload(d)], p')
  {
    WireContent(w.content, w.padding, d);
    TraceOne(w, Payload(d));
  }

  lemma DropRefines(p: Parser, w: Wire, d: Bytes)
    requires Agrees(p, w) && p.remaining == 0 && 0 < p.skip && |d| <= p.skip
    ensures Refines(p, w, d, [Dropped(d)], p.(skip := p.skip - |d|))
  {
    WireRest(w.content, w.padding, d, Min(w.content, |d|));
    TraceOne(w, Dropped(d));
  }

  lemma EndRefines(p: Parser, w: Wire)
    requires Agrees(p, w) && p.EndPending()
    ensures Refines(p, w, [], [End], p.(inFrame := false))
  {
    TraceOne(w, End);
  }

  lemma HeaderRefines(p: Parser, w: Wire, h: Bytes, p': Parser)
    requires Agrees(p, w) && !p.inFrame && |h| == HEADER_SIZE
    requires p'.inFrame && p'.remaining + p'.skip == Be16(h[4], h[5]) + h[6]
    requires p'.remaining > 0 ==> p'.remaining == Be16(h[4], h[5])
    ensures Refines(p, w, h, [Header(h[1], Be16(h[2], h[3]), h)], p')
  {
    hide WireAfter, EventsOf, EraseAll, AllBytes, Be16;
    TraceOne(w, Header(h[1], Be16(h[2], h[3]), h));
    WireHeader(w, h);
    var open, end := [Open(h[1], Be16(h[2], h[3]))], CloseIf(p'.EndPending());
    assert CloseIf(p.EndPending()) + (open + end) == open + end;
  }

  lemma StepRefines<S(!new)>(p: Parser, w: Wire, src: Bytes, h: Handler<S>, s: S)
    requires Sane(h) && Agrees(p, w)
    ensures var r := Step(p, src, h, s); Refines(p, w, src[..r.used], r.notice, r.parser)
  {
    var r := Step(p, src, h, s);
    if p.remaining > 0 {
      if r.used > 0 {
        assert r.notice == [Payload(src[..r.used])];
        PayloadRefines(p, w, src[..r.used], r.parser);
      }
    } else if p.skip > 0 {
      DropRefines(p, w, src[..r.used]);
    } else if p.inFrame {
      EndRefines(p, w);
    } else if r.used > 0 {
      HeaderRefines(p, w, src[..HEADER_SIZE], r.parser);
    }
  }

  lemma Glue<T>(c0: seq<T>, ea: seq<T>, va: seq<T>, c1: seq<T>, eb: seq<T>, vb: seq<T>, c2: seq<T>)
    requires ea + c1 == c0 + va && eb + c2 == c1 + vb
    ensures (ea + eb) + c2 == c0 + (va + vb)
  {
    assert (ea + eb) + c2 == ea + (eb + c2);
    assert ea + (c1 + vb) == (ea + c1) + vb;
    assert (c0 + va) + vb == c0 + (va + vb);
  }

  lemma RefinesConcat(p: Parser, w: Wire, a: Bytes, ta: seq<Notice>, p1: Parser,
                      b: Bytes, tb: seq<Notice>, p2: Parser)
    requires Refines(p, w, a, ta, p1) && Refines(p1, WireAfter(w, a), b, tb, p2)
    ensures Refines(p, w, a + b, ta + tb, p2)
  {
    var w1 := WireAfter(w, a);
    WireConcat(w, a, b);
    BytesConcat(ta, tb);
    EraseConcat(w, ta, tb);
    Glue(CloseIf(p.EndPending()), EraseAll(w, ta), EventsOf(w, a),
         CloseIf(p1.EndPending()), EraseAll(w1, tb), EventsOf(w1, b), CloseIf(p2.EndPending()));
  }

  lemma RefinesChain(p: Parser, w: Wire, src: Bytes, m: nat, ta: seq<Notice>, p1: Parser,
                     n: nat, tb: seq<Notice>, p2: Parser)
    requires m + n <= |src|
    requires Refines(p, w, src[..m], ta, p1)
    requires Refines(p1, WireAfter(w, src[..m]), src[m..][..n], tb, p2)
    ensures Refines(p, w, src[..m + n], ta + tb, p2)
  {
    hide *;
    assert src[..m] + src[m..][..n] == src[..m + n];
    RefinesConcat(p, w, src[..m], ta, p1, src[m..][..n], tb, p2);
  }

  lemma RefinesNothing(p: Parser, w: Wire)
    requires Agrees(p, w)
    ensures Refines(p, w, [], [], p)
  {
  }

  lemma StillAgrees(p: Parser, w: Wire, bytes: Bytes, trace: seq<Notice>, p': Parser)
    requires Refines(p, w, bytes, trace, p')
    ensures Agrees(p', WireAfter(w, bytes))
  {
  }

  /**
   One call of Feed() with any handler: the bytes it uses are handled in order, and
   the boundaries are those of the bytes alone.
   */
  lemma {:induction false} DriveRefines<S(!new)>(p: Parser, w: Wire, src: Bytes, h: Handler<S>, s: S)
    requires Sane(h) && Agrees(p, w)
    ensures var o := Drive(p, src, h, s);
            Refines(p, w, src[..o.used], o.trace, o.parser)
    decreases |src|, p.Rank()
  {
    hide Step, Refines, WireAfter;
    var r := Step(p, src, h, s);
    StepRefines(p, w, src, h, s);
    if r.halt.None? {
      var o := Drive(r.parser, src[r.used..], h, r.state);
      StillAgrees(p, w, src[..r.used], r.notice, r.parser);
      DriveRefines(r.parser, WireAfter(w, src[..r.used]), src[r.used..], h, r.state);
      RefinesChain(p, w, src, r.used, r.notice, r.parser, o.used, o.trace, o.parser);
    }
  }

  /** One call: more input arrives behind the unconsumed rest, and all of it is presented. */
  datatype Call<!S> = Call(handler: Handler<S>, more: Bytes)

  datatype Run<S> = Run(parser: Parser, rest: Bytes, state: S, used: Bytes, trace: seq<Notice>, closed: bool)

  ghost function RunCalls<S(!new)>(p: Parser, rest: Bytes, s: S, calls: seq<Call<S>>): (r: Run<S>)
    requires p.Valid() && forall c <- calls :: Sane(c.handler)
    decreases |calls|
  {
    if calls == [] then
      Run(p, rest, s, [], [], false)
    else
      var src := rest + calls[0].more;
      var o := Drive(p, src, calls[0].handler, s);
      if o.result == CLOSED then
        Run(o.parser, src[o.used..], o.state, src[..o.used], o.trace, true)
      else
        var r := RunCalls(o.parser, src[o.used..], o.state, calls[1..]);
        r.(used := src[..o.used] + r.used, trace := o.trace + r.trace)
  }

  ghost function Received<S>(rest: Bytes, calls: seq<Call<S>>): Bytes
    decreases |calls|
  {
    if calls == [] then rest else Received(rest + calls[0].more, calls[1..])
  }

  lemma {:induction false} ReceivedConcat<S>(a: Bytes, b: Bytes, calls: seq<Call<S>>)
    ensures Received(a + b, calls) == a + Received(b, calls)
    decreases |calls|
  {
    if calls != [] {
      assert (a + b) + calls[0].more == a + (b + calls[0].more);
      ReceivedConcat(a, b + calls[0].more, calls[1..]);
    }
  }

  /** Until a handler closes the parser, no byte is lost: what was not used is kept for the next call. */
  lemma {:induction false} RunAccounts<S(!new)>(p: Parser, rest: Bytes, s: S, calls: seq<Call<S>>)
    requires p.Valid() && forall c <- calls :: Sane(c.handler)
    ensures var r := RunCalls(p, rest, s, calls);
            !r.closed ==> r.used + r.rest == Received(rest, calls)
    decreases |calls|
  {
    hide Drive;
    if calls != [] {
      var src := rest + calls[0].more;
      var o := Drive(p, src, calls[0].handler, s);
      if o.result != CLOSED {
        var a, b := src[..o.used], src[o.used..];
        assert src == a + b;
        RunAccounts(o.parser, b, o.state, calls[1..]);
        var r := RunCalls(o.parser, b, o.state, calls[1..]);
        if !r.closed {
          calc {
            (a + r.used) + r.rest;
            a + (r.used + r.rest);
            a + Received(b, calls[1..]);
            { ReceivedConcat(a, b, calls[1..]); }
            Received(src, calls[1..]);
          }
        }
      }
    }
  }

  /** Any number of calls, any cuts, any handlers: the whole trace means exactly the bytes used. */
  lemma {:induction false} RunRefines<S(!new)>(p: Parser, w: Wire, rest: Bytes, s: S, calls: seq<Call<S>>)
    requires Agrees(p, w) && forall c <- calls :: Sane(c.handler)
    ensures var r := RunCalls(p, rest, s, calls);
            Refines(p, w, r.used, r.trace, r.parser)
    decreases |calls|
  {
    hide Drive, Refines, WireAfter;
    if calls == [] {
      RefinesNothing(p, w);
    } else {
      var src := rest + calls[0].more;
      var o := Drive(p, src, calls[0].handler, s);
      DriveRefines(p, w, src, calls[0].handler, s);
      var a, b := src[..o.used], src[o.used..];
      StillAgrees(p, w, a, o.trace, o.parser);
      if o.result != CLOSED {
        var r := RunCalls(o.parser, b, o.state, calls[1..]);
        RunRefines(o.parser, WireAfter(w, a), b, o.state, calls[1..]);
        RefinesConcat(p, w, a, o.trace, o.parser, r.used, r.trace, r.parser);
      }
    }
  }

  /** What the handler itself gets to see. */
  function Seen(n: Notice): seq<Event> {
    match n
    case Header(rtype, id, _) => [Open(rtype, id)]
    case Payload(d) => DataEvents(d)
    case Dropped(_) => []
    case End => [Close]
  }

  function SeenAll(trace: seq<Notice>): seq<Event> {
    if trace == [] then [] else Seen(trace[0]) + SeenAll(trace[1..])
  }

  lemma {:induction false} SeenConcat(a: seq<Notice>, b: seq<Notice>)
    ensures SeenAll(a + b) == SeenAll(a) + SeenAll(b)
  {
    if a == [] {
      assert a + b == b;
    } else {
      assert (a + b)[0] == a[0] && (a + b)[1..] == a[1..] + b;
      SeenConcat(a[1..], b);
    }
  }

  // What the handler itself can tell

  /** The handler counts the bytes that are reported as consumed, in no other callback. */
  ghost predicate Counts<S(!new)>(h: Handler<S>, count: S -> nat) {
    && (forall s, n :: count(h.onConsumed(s, n)) == count(s) + n)
    && (forall s, d :: count(h.onPayload(s, d).state) == count(s))
    && (forall s, t, id :: count(h.onHeader(s, t, id).state) == count(s))
    && (forall s :: count(h.onEnd(s).state) == count(s))
  }

  /** Every byte used is reported as consumed exactly once. */
  lemma {:induction false} DriveReports<S(!new)>(p: Parser, src: Bytes, h: Handler<S>, s: S, count: S -> nat)
    requires Sane(h) && p.Valid() && Counts(h, count)
    ensures var o := Drive(p, src, h, s); count(o.state) == count(s) + o.used
    decreases |src|, p.Rank()
  {
    var r := Step(p, src, h, s);
    assert count(r.state) == count(s) + r.used;
    if r.halt.None? {
      hide Step, Counts, Sane;
      DriveReports(r.parser, src[r.used..], h, r.state, count);
    }
  }

  /** The handler logs what it is told. */
  ghost predicate Logs<S(!new)>(h: Handler<S>, log: S -> seq<Event>) {
    && (forall s, n :: log(h.onConsumed(s, n)) == log(s))
    && (forall s, d :: h.onPayload(s, d).taken <= |d|
                       && log(h.onPayload(s, d).state) == log(s) + DataEvents(d[..h.onPayload(s, d).taken]))
    && (forall s, t, id :: log(h.onHeader(s, t, id).state) == log(s) + [Open(t, id)])
    && (forall s :: log(h.onEnd(s).state) == log(s) + [Close])
  }

  lemma StepLogs<S(!new)>(p: Parser, src: Bytes, h: Handler<S>, s: S, log: S -> seq<Event>)
    requires Sane(h) && p.Valid() && Logs(h, log)
    ensures var r := Step(p, src, h, s); log(r.state) == log(s) + SeenAll(r.notice)
  {
    var r := Step(p, src, h, s);
    assert r.notice == [] || r.notice == [r.notice[0]];
    if r.notice != [] {
      assert r.notice[1..] == [];
      assert SeenAll(r.notice) == Seen(r.notice[0]) + [];
    }
    if p.remaining > 0 && src != [] {
      var payload := src[..Min(p.remaining, |src|)];
      var n := h.onPayload(s, payload).taken;
      assert payload[..n] == src[..n];
      if n == 0 {
        assert DataEvents([]) == [];
      }
    }
  }

  /** The trace is what the handler was told, callback by callback. */
  lemma {:induction false} DriveLogs<S(!new)>(p: Parser, src: Bytes, h: Handler<S>, s: S, log: S -> seq<Event>)
    requires Sane(h) && p.Valid() && Logs(h, log)
    ensures var o := Drive(p, src, h, s); log(o.state) == log(s) + SeenAll(o.trace)
    decreases |src|, p.Rank()
  {
    hide Step, Logs, Sane, SeenAll;
    var r := Step(p, src, h, s);
    StepLogs(p, src, h, s, log);
    if r.halt.None? {
      var o := Drive(r.parser, src[r.used..], h, r.state);
      DriveLogs(r.parser, src[r.used..], h, r.state, log);
      SeenConcat(r.notice, o.trace);
      Assoc(log(s), SeenAll(r.notice), SeenAll(o.trace));
    }
  }

  lemma Assoc<T>(a: seq<T>, b: seq<T>, c: seq<T>)
    ensures a + (b + c) == a + b + c
  {
  }

  /** Over any calls, every byte used is reported exactly once. */
  lemma {:induction false} RunReports<S(!new)>(p: Parser, rest: Bytes, s: S, calls: seq<Call<S>>, count: S -> nat)
    requires p.Valid() && forall c <- calls :: Sane(c.handler) && Counts(c.handler, count)
    ensures var r := RunCalls(p, rest, s, calls); count(r.state) == count(s) + |r.used|
    decreases |calls|
  {
    hide Drive, Sane, Counts;
    if calls != [] {
      var src := rest + calls[0].more;
      var o := Drive(p, src, calls[0].handler, s);
      DriveReports(p, src, calls[0].handler, s, count);
      if o.result != CLOSED {
        RunReports(o.parser, src[o.used..], o.state, calls[1..], count);
      }
    }
  }

  /** Over any calls, the trace is what the handlers were told. */
  lemma {:induction false} RunLogs<S(!new)>(p: Parser, rest: Bytes, s: S, calls: seq<Call<S>>, log: S -> seq<Event>)
    requires p.Valid() && forall c <- calls :: Sane(c.handler) && Logs(c.handler, log)
    ensures var r := RunCalls(p, rest, s, calls); log(r.state) == log(s) + SeenAll(r.trace)
    decreases |calls|
  {
    if calls == [] {
      assert log(s) + [] == log(s);
    } else {
      hide Drive, Sane, Logs, SeenAll;
      var src := rest + calls[0].more;
      var o := Drive(p, src, calls[0].handler, s);
      DriveLogs(p, src, calls[0].handler, s, log);
      if o.result != CLOSED {
        var r := RunCalls(o.parser, src[o.used..], o.state, calls[1..]);
        RunLogs(o.parser, src[o.used..], o.state, calls[1..], log);
        SeenConcat(o.trace, r.trace);
        Assoc(log(s), SeenAll(o.trace), SeenAll(r.trace));
      }
    }
  }

  ghost predicate NeverSkips<S(!new)>(h: Handler<S>) {
    && (forall s, t, i :: h.onHeader(s, t, i).result != Skip)
    && (forall s, d :: h.onPayload(s, d).result != Skip)
  }

  /** No content is passed over. */
  ghost predicate SeesAll(w: Wire, trace: seq<Notice>) {
    EraseAll(w, trace) == SeenAll(trace)
  }

  lemma ShowsOne(w: Wire, n: Notice)
    requires n.Dropped? ==> w.content == 0
    ensures SeesAll(w, [n])
  {
    TraceOne(w, n);
    assert [n][1..] == [];
  }

  lemma StepExact<S(!new)>(p: Parser, w: Wire, src: Bytes, h: Handler<S>, s: S)
    requires Sane(h) && NeverSkips(h) && Exact(p, w)
    ensures var r := Step(p, src, h, s); Exact(r.parser, WireAfter(w, src[..r.used]))
  {
    hide WireAfter, Refines, EventsOf;
    var r := Step(p, src, h, s);
    var d := src[..r.used];
    StepRefines(p, w, src, h, s);
    StillAgrees(p, w, d, r.notice, r.parser);
    if r.used == 0 {
      NoBytes(w);
    } else if p.remaining > 0 {
      WireContent(w.content, w.padding, d);
    } else if p.skip > 0 {
      WirePadding(w.padding, d);
    } else {
      WireHeader(w, d);
    }
  }

  lemma StepShows<S(!new)>(p: Parser, w: Wire, src: Bytes, h: Handler<S>, s: S)
    requires Sane(h) && Exact(p, w)
    ensures SeesAll(w, Step(p, src, h, s).notice)
  {
    hide SeesAll;
    var notice := Step(p, src, h, s).notice;
    if notice == [] {
      NothingSeen(w);
    } else {
      ShowsOne(w, notice[0]);
      assert notice == [notice[0]];
    }
  }

  lemma NothingSeen(w: Wire)
    ensures SeesAll(w, [])
  {
  }

  lemma NoBytes(w: Wire)
    ensures WireAfter(w, []) == w
  {
  }

  lemma ShowsConcat(w: Wire, a: seq<Notice>, b: seq<Notice>)
    requires SeesAll(w, a) && SeesAll(WireAfter(w, AllBytes(a)), b)
    ensures SeesAll(w, a + b)
  {
    EraseConcat(w, a, b);
    SeenConcat(a, b);
  }

  lemma WireChain(w: Wire, src: Bytes, m: nat, n: nat)
    requires m + n <= |src|
    ensures WireAfter(w, src[..m + n]) == WireAfter(WireAfter(w, src[..m]), src[m..][..n])
  {
    hide *;
    assert src[..m + n] == src[..m] + src[m..][..n];
    WireConcat(w, src[..m], src[m..][..n]);
  }

  lemma {:induction false} DriveShows<S(!new)>(p: Parser, w: Wire, src: Bytes, h: Handler<S>, s: S)
    requires Sane(h) && NeverSkips(h) && Exact(p, w)
    ensures var o := Drive(p, src, h, s);
            && Exact(o.parser, WireAfter(w, src[..o.used]))
            && SeesAll(w, o.trace)
    decreases |src|, p.Rank()
  {
    hide Step, SeesAll, WireAfter;
    var r := Step(p, src, h, s);
    StepRefines(p, w, src, h, s);
    StepShows(p, w, src, h, s);
    StepExact(p, w, src, h, s);
    if r.halt.None? {
      var a, rest := src[..r.used], src[r.used..];
      var o := Drive(r.parser, rest, h, r.state);
      DriveShows(r.parser, WireAfter(w, a), rest, h, r.state);
      ShowsConcat(w, r.notice, o.trace);
      WireChain(w, src, r.used, o.used);
    }
  }

  lemma {:induction false} RunShows<S(!new)>(p: Parser, w: Wire, rest: Bytes, s: S, calls: seq<Call<S>>)
    requires Exact(p, w) && forall c <- calls :: Sane(c.handler) && NeverSkips(c.handler)
    ensures SeesAll(w, RunCalls(p, rest, s, calls).trace)
    decreases |calls|
  {
    hide Drive, SeesAll, WireAfter;
    if calls == [] {
      NothingSeen(w);
    } else {
      var src := rest + calls[0].more;
      var o := Drive(p, src, calls[0].handler, s);
      DriveRefines(p, w, src, calls[0].handler, s);
      DriveShows(p, w, src, calls[0].handler, s);
      if o.result != CLOSED {
        RunShows(o.parser, WireAfter(w, src[..o.used]), src[o.used..], o.state, calls[1..]);
        ShowsConcat(w, o.trace, RunCalls(o.parser, src[o.used..], o.state, calls[1..]).trace);
      }
    }
  }

  lemma AtStart()
    ensures Exact(INITIAL, START) && Agrees(INITIAL, START)
  {
  }

  lemma CanonicalFromStart(used: Bytes, trace: seq<Notice>, p: Parser)
    requires Refines(INITIAL, START, used, trace, p) && SeesAll(START, trace)
    ensures SeenAll(trace) + CloseIf(p.EndPending()) == EventsOf(START, used)
  {
    hide EventsOf, SeenAll, EraseAll, AllBytes, WireAfter;
    var events := EventsOf(START, used);
    assert CloseIf(INITIAL.EndPending()) + events == events;
  }

  /**
   Independence of fragmentation and back-pressure.  Handlers that do not skip
   see the canonical events of the bytes used: one header event, the content in
   order, one end event per record, with at most the last end still owed.
   */
  lemma SeenIsCanonical<S(!new)>(s: S, calls: seq<Call<S>>)
    requires forall c <- calls :: Sane(c.handler) && NeverSkips(c.handler)
    ensures var r := RunCalls(INITIAL, [], s, calls);
            SeenAll(r.trace) + CloseIf(r.parser.EndPending()) == EventsOf(START, r.used)
  {
    hide RunCalls, Refines, SeesAll, SeenAll, EventsOf, EraseAll, Sane, NeverSkips, Exact, Agrees, CloseIf,
         Parser.EndPending;
    AtStart();
    RunRefines(INITIAL, START, [], s, calls);
    RunShows(INITIAL, START, [], s, calls);
    var r := RunCalls(INITIAL, [], s, calls);
    CanonicalFromStart(r.used, r.trace, r.parser);
  }

  /** A record as section 3.3 of the FastCGI Specification 1.0 lays it out. */
  datatype Record = Record(rtype: Byte, id: nat, content: Bytes, padding: Bytes) {
    predicate Valid() {
      id < 0x10000 && |content| < 0x10000 && |padding| < 0x100
    }
  }

  function EncodeHeader(rtype: Byte, id: nat, content: nat, padding: nat): (h: Bytes)
    requires id < 0x10000 && content < 0x10000 && padding < 0x100
    ensures |h| == HEADER_SIZE && h[1] == rtype && h[6] == padding
    ensures Be16(h[2], h[3]) == id && Be16(h[4], h[5]) == content
  {
    [1, rtype, id / 256, id % 256, content / 256, content % 256, padding, 0]
  }

  function Encode(r: Record): Bytes
    requires r.Valid()
  {
    EncodeHeader(r.rtype, r.id, |r.content|, |r.padding|) + (r.content + r.padding)
  }

  function EncodeAll(rs: seq<Record>): Bytes
    requires forall r <- rs :: r.Valid()
  {
    if rs == [] then [] else Encode(rs[0]) + EncodeAll(rs[1..])
  }

  function RecordEvents(r: Record): seq<Event> {
    [Open(r.rtype, r.id)] + DataEvents(r.content) + [Close]
  }

  function AllRecordEvents(rs: seq<Record>): seq<Event> {
    if rs == [] then [] else RecordEvents(rs[0]) + AllRecordEvents(rs[1..])
  }

  lemma EncodeMeans(r: Record)
    requires r.Valid()
    ensures WireAfter(START, Encode(r)) == START
    ensures EventsOf(START, Encode(r)) == RecordEvents(r)
  {
    hide WireAfter, EventsOf, DataEvents;
    var h := EncodeHeader(r.rtype, r.id, |r.content|, |r.padding|);
    var body := r.content + r.padding;
    WireConcat(START, h, body);
    WireHeader(START, h);
    WireRest(|r.content|, |r.padding|, body, |r.content|);
    assert body[..|r.content|] == r.content;
    var open := [Open(r.rtype, r.id)];
    if body == [] {
      NoBytes(START);
      assert DataEvents(r.content) == [] by { NoEvents(r.content); }
      assert open + CloseIf(true) == open + [] + [Close];
      assert EventsOf(START, body) == [] by { NoWireEvents(START); }
    } else {
      assert EventsOf(START, h) == open;
      assert open + (DataEvents(r.content) + [Close]) == open + DataEvents(r.content) + [Close];
    }
  }

  lemma NoEvents(d: Bytes)
    ensures d == [] ==> DataEvents(d) == []
  {
  }

  lemma NoWireEvents(w: Wire)
    ensures EventsOf(w, []) == []
  {
  }

  /** The automaton is a decoder: it gives back the records of any encoding. */
  lemma {:induction false} EncodeAllMeans(rs: seq<Record>)
    requires forall r <- rs :: r.Valid()
    ensures WireAfter(START, EncodeAll(rs)) == START
    ensures EventsOf(START, EncodeAll(rs)) == AllRecordEvents(rs)
  {
    hide Encode, RecordEvents;
    if rs != [] {
      EncodeMeans(rs[0]);
      EncodeAllMeans(rs[1..]);
      WireConcat(START, Encode(rs[0]), EncodeAll(rs[1..]));
    }
  }

  /** Records in, records out, for every way of cutting and blocking that uses the whole encoding. */
  lemma RecordsAreSeen<S(!new)>(s: S, calls: seq<Call<S>>, rs: seq<Record>)
    requires forall c <- calls :: Sane(c.handler) && NeverSkips(c.handler)
    requires forall r <- rs :: r.Valid()
    requires RunCalls(INITIAL, [], s, calls).used == EncodeAll(rs)
    ensures var r := RunCalls(INITIAL, [], s, calls);
            SeenAll(r.trace) + CloseIf(r.parser.EndPending()) == AllRecordEvents(rs)
  {
    hide *;
    SeenIsCanonical(s, calls);
    EncodeAllMeans(rs);
  }
}
