/**
 What a record stream means to the client of one request: the STDOUT and STDERR
 payload of its own records, up to the end of its END_REQUEST record.
 */
module FcgiView {
  import opened Octets
  import opened FcgiWire
  import opened FcgiParser
  import opened FcgiDecode

  /** The current record, as seen by one request. */
  datatype Kind = Idle | Out | Err | Ending

  /** The stream of the first payload byte that follows the END_REQUEST record. */
  datatype Late = NoLate | LateOut | LateErr

  datatype View = View(out: Bytes, err: Bytes, late: Late, kind: Kind, done: bool)

  function KindOf(id: nat, rtype: nat, rid: nat): Kind {
    if rid != id then Idle
    else if rtype == STDOUT then Out
    else if rtype == STDERR then Err
    else if rtype == END_REQUEST then Ending
    else Idle
  }

  function SeeLate(v: View, d: Bytes, late: Late): View {
    if d == [] || v.late != NoLate then v else v.(late := late)
  }

  function SeeData(v: View, d: Bytes): View {
    match v.kind
    case Out => if v.done then SeeLate(v, d, LateOut) else v.(out := v.out + d)
    case Err => if v.done then SeeLate(v, d, LateErr) else v.(err := v.err + d)
    case _ => v
  }

  function SeeClose(v: View): View {
    v.(kind := Idle, done := v.done || v.kind == Ending)
  }

  function CloseWhen(v: View, closes: bool): View {
    if closes then SeeClose(v) else v
  }

  function See(id: nat, v: View, e: Event): View {
    match e
    case Open(rtype, rid) => v.(kind := KindOf(id, rtype, rid))
    case Data(b) => SeeData(v, [b])
    case Close => SeeClose(v)
  }

  function SeeAll(id: nat, v: View, events: seq<Event>): View
    decreases |events|
  {
    if events == [] then v else SeeAll(id, See(id, v, events[0]), events[1..])
  }

  lemma {:induction false} SeeConcat(id: nat, v: View, a: seq<Event>, b: seq<Event>)
    ensures SeeAll(id, v, a + b) == SeeAll(id, SeeAll(id, v, a), b)
    decreases |a|
  {
    hide See;
    if a == [] {
      assert a + b == b;
    } else {
      assert (a + b)[0] == a[0] && (a + b)[1..] == a[1..] + b;
      SeeConcat(id, See(id, v, a[0]), a[1..], b);
    }
  }

  lemma SeeDataConcat(v: View, a: Bytes, b: Bytes)
    ensures SeeData(SeeData(v, a), b) == SeeData(v, a + b)
  {
    assert v.out + a + b == v.out + (a + b);
    assert v.err + a + b == v.err + (a + b);
  }

  lemma SeeDataNone(v: View)
    ensures SeeData(v, []) == v
  {
    assert v.out + [] == v.out && v.err + [] == v.err;
  }

  lemma {:induction false} SeeDataEvents(id: nat, v: View, d: Bytes)
    ensures SeeAll(id, v, DataEvents(d)) == SeeData(v, d)
    decreases |d|
  {
    hide SeeData;
    if d == [] {
      SeeDataNone(v);
    } else {
      SeeDataEvents(id, SeeData(v, [d[0]]), d[1..]);
      SeeDataConcat(v, [d[0]], d[1..]);
      assert [d[0]] + d[1..] == d;
      assert DataEvents(d)[1..] == DataEvents(d[1..]);
    }
  }

  lemma SeeCloseIf(id: nat, v: View, closes: bool)
    ensures SeeAll(id, v, CloseIf(closes)) == CloseWhen(v, closes)
  {
    hide SeeClose;
    assert [Close][1..] == [];
  }

  lemma SeeOpen(id: nat, v: View, rtype: nat, rid: nat)
    ensures SeeAll(id, v, [Open(rtype, rid)]) == v.(kind := KindOf(id, rtype, rid))
  {
    hide KindOf;
    assert [Open(rtype, rid)][1..] == [];
  }

  /** The view after these bytes. */
  function Total(id: nat, w: Wire, v: View, bytes: Bytes): View {
    SeeAll(id, v, EventsOf(w, bytes))
  }

  lemma TotalConcat(id: nat, w: Wire, v: View, a: Bytes, b: Bytes)
    ensures Total(id, w, v, a + b) == Total(id, WireAfter(w, a), Total(id, w, v, a), b)
  {
    hide SeeAll, EventsOf, WireAfter;
    WireConcat(w, a, b);
    SeeConcat(id, v, EventsOf(w, a), EventsOf(WireAfter(w, a), b));
  }

  lemma TotalSplit(id: nat, w: Wire, v: View, src: Bytes, n: nat)
    requires n <= |src|
    ensures Total(id, w, v, src) == Total(id, WireAfter(w, src[..n]), Total(id, w, v, src[..n]), src[n..])
  {
    hide *;
    assert src == src[..n] + src[n..];
    TotalConcat(id, w, v, src[..n], src[n..]);
  }

  lemma TotalNone(id: nat, w: Wire, v: View)
    ensures Total(id, w, v, []) == v
  {
  }

  /** What one notice of the parser does to the view. */
  function ViewOf(id: nat, w: Wire, v: View, n: Notice): View {
    match n
    case Header(rtype, rid, h) =>
      CloseWhen(v.(kind := KindOf(id, rtype, rid)), |h| > 6 && Be16(h[4], h[5]) + h[6] == 0)
    case Payload(d) =>
      CloseWhen(SeeData(v, d), d != [] && |d| == w.content && w.padding == 0)
    case Dropped(d) =>
      CloseWhen(SeeData(v, d[..Min(w.content, |d|)]), d != [] && |d| == w.content + w.padding)
    case End => v
  }

  lemma TotalPayload(id: nat, w: Wire, v: View, d: Bytes)
    requires w.Aligned() && |d| <= w.content
    ensures Total(id, w, v, d) == ViewOf(id, w, v, Payload(d))
  {
    hide SeeAll, EventsOf, SeeData, SeeClose, WireAfter, DataEvents;
    WireContent(w.content, w.padding, d);
    var closes := d != [] && |d| == w.content && w.padding == 0;
    SeeConcat(id, v, DataEvents(d), CloseIf(closes));
    SeeDataEvents(id, v, d);
    SeeCloseIf(id, SeeData(v, d), closes);
  }

  lemma TotalDropped(id: nat, w: Wire, v: View, d: Bytes)
    requires w.Aligned() && |d| <= w.content + w.padding
    ensures Total(id, w, v, d) == ViewOf(id, w, v, Dropped(d))
  {
    hide SeeAll, EventsOf, SeeData, SeeClose, WireAfter, DataEvents;
    var n := Min(w.content, |d|);
    WireRest(w.content, w.padding, d, n);
    var closes := d != [] && |d| == w.content + w.padding;
    SeeConcat(id, v, DataEvents(d[..n]), CloseIf(closes));
    SeeDataEvents(id, v, d[..n]);
    SeeCloseIf(id, SeeData(v, d[..n]), closes);
  }

  lemma TotalHeader(id: nat, w: Wire, v: View, h: Bytes)
    requires Between(w) && w.Aligned() && |h| == HEADER_SIZE
    ensures Total(id, w, v, h) == ViewOf(id, w, v, Header(h[1], Be16(h[2], h[3]), h))
  {
    hide SeeAll, EventsOf, SeeClose, WireAfter, KindOf, Be16;
    WireHeader(w, h);
    var closes := Be16(h[4], h[5]) + h[6] == 0;
    var open := Open(h[1], Be16(h[2], h[3]));
    SeeConcat(id, v, [open], CloseIf(closes));
    SeeOpen(id, v, h[1], Be16(h[2], h[3]));
    SeeCloseIf(id, v.(kind := KindOf(id, h[1], Be16(h[2], h[3]))), closes);
  }

  /** A view only grows, and an ended one keeps its payload. */
  ghost predicate Extends(v: View, t: View) {
    && v.out <= t.out
    && v.err <= t.err
    && (v.late != NoLate ==> t.late == v.late)
    && (v.done ==> t.done && t.out == v.out && t.err == v.err)
  }

  lemma {:induction false} SeeGrows(id: nat, v: View, events: seq<Event>)
    ensures Extends(v, SeeAll(id, v, events))
    decreases |events|
  {
    if events != [] {
      SeeGrows(id, See(id, v, events[0]), events[1..]);
    }
  }

  lemma TotalGrows(id: nat, w: Wire, v: View, bytes: Bytes)
    ensures Extends(v, Total(id, w, v, bytes))
  {
    hide *;
    TotalAll(id, w, v, bytes);
    SeeGrows(id, v, EventsOf(w, bytes));
  }

  lemma TotalAll(id: nat, w: Wire, v: View, bytes: Bytes)
    ensures Total(id, w, v, bytes) == SeeAll(id, v, EventsOf(w, bytes))
  {
  }

  /**
   The parser follows this request: only its STDOUT and STDERR records are
   offered to the handler, and no STDOUT byte is passed over.
   */
  ghost predicate Track(p: Parser, w: Wire, v: View) {
    && Agrees(p, w)
    && (p.remaining > 0 ==> v.kind.Out? || v.kind.Err?)
    && (p.remaining == 0 && v.kind.Out? ==> w.content == 0)
    && (w.content + w.padding == 0 ==> v.kind.Idle?)
  }

  /** This step's answers fit a handler for request `id`. */
  ghost predicate Fits<S(!new)>(h: Handler<S>, id: nat) {
    && Sane(h)
    && (forall s, d :: h.onPayload(s, d).result != Skip)
    && (forall s, t, i ::
          match h.onHeader(s, t, i).result
          case Skip => !KindOf(id, t, i).Out?
          case Continue => KindOf(id, t, i).Out? || KindOf(id, t, i).Err?
          case _ => true)
  }

  lemma TrackPayload<S(!new)>(id: nat, p: Parser, w: Wire, v: View, src: Bytes, h: Handler<S>, s: S)
    requires Fits(h, id) && Track(p, w, v) && p.remaining > 0
    ensures var r := PayloadStep(p, src, h, s);
            && r.used <= |src|
            && (if r.used == 0 then r.notice == [] && r.parser == p
                else r.notice == [Payload(src[..r.used])] && r.parser == p.(remaining := p.remaining - r.used))
            && Track(r.parser, WireAfter(w, src[..r.used]), Total(id, w, v, src[..r.used]))
  {
    hide WireAfter, Total;
    var r := PayloadStep(p, src, h, s);
    var d := src[..r.used];
    if r.used == 0 {
      NoBytes(w);
      TotalNone(id, w, v);
    } else {
      WireContent(w.content, w.padding, d);
      TotalPayload(id, w, v, d);
    }
  }

  lemma TrackSkip<S(!new)>(id: nat, p: Parser, w: Wire, v: View, src: Bytes, h: Handler<S>, s: S)
    requires Track(p, w, v) && p.remaining == 0 && p.skip > 0
    ensures var r := SkipStep(p, src, h, s);
            && r.used <= |src|
            && r.notice == [Dropped(src[..r.used])]
            && Track(r.parser, WireAfter(w, src[..r.used]), Total(id, w, v, src[..r.used]))
  {
    hide WireAfter, Total;
    var r := SkipStep(p, src, h, s);
    var d := src[..r.used];
    WireRest(w.content, w.padding, d, Min(w.content, |d|));
    TotalDropped(id, w, v, d);
  }

  lemma TrackEnd(p: Parser, w: Wire, v: View, p': Parser)
    requires Track(p, w, v) && p.EndPending()
    requires p'.remaining == p.remaining && p'.skip == p.skip && !p'.inFrame
    ensures Track(p', w, v)
  {
  }

  lemma TrackHeader<S(!new)>(id: nat, p: Parser, w: Wire, v: View, src: Bytes, h: Handler<S>, s: S)
    requires Fits(h, id) && Track(p, w, v) && !p.inFrame && |src| >= HEADER_SIZE
    ensures var r := HeaderStep(p, src, h, s);
            && r.used == HEADER_SIZE
            && r.notice == [Header(src[1], Be16(src[2], src[3]), src[..HEADER_SIZE])]
            && (r.halt.None? ==>
                  Track(r.parser, WireAfter(w, src[..HEADER_SIZE]), Total(id, w, v, src[..HEADER_SIZE])))
  {
    hide WireAfter, Total, Be16;
    var d := src[..HEADER_SIZE];
    WireHeader(w, d);
    TotalHeader(id, w, v, d);
  }
}
