/**
 The incremental record parser.  A handler is a bundle of functions over its own
 state; it may answer anything and accept any part of a payload.
 */
module FcgiParser {
  import opened Octets
  import opened FcgiWire

  datatype FrameResult = Skip | Continue | Stop | Closed

  datatype FeedResult = BLOCKING | MORE | STOP | CLOSED

  datatype Option<T> = None | Some(value: T)

  datatype Reply<S> = Reply(result: FrameResult, state: S)

  datatype PayloadReply<S> = PayloadReply(result: FrameResult, taken: nat, state: S)

  datatype Handler<!S> = Handler(
    onHeader: (S, nat, nat) -> Reply<S>,
    onPayload: (S, Bytes) -> PayloadReply<S>,
    onEnd: S -> Reply<S>,
    onConsumed: (S, nat) -> S)

  /** A handler never claims more than it was offered. */
  ghost predicate Sane<S(!new)>(h: Handler<S>) {
    forall s, d :: h.onPayload(s, d).taken <= |d|
  }

  datatype Parser = Parser(remaining: nat, skip: nat, inFrame: bool) {
    predicate Valid() {
      remaining + skip > 0 ==> inFrame
    }

    function SkipCurrent(): Parser {
      Parser(0, remaining + skip, inFrame)
    }

    /** The record is complete but its end was not announced yet. */
    predicate EndPending() {
      inFrame && remaining + skip == 0
    }

    function Rank(): nat {
      if remaining > 0 then 3 else if skip > 0 then 2 else if inFrame then 1 else 0
    }
  }

  const INITIAL: Parser := Parser(0, 0, false)

  /** What the parser does with the bytes, in the order in which it does it. */
  datatype Notice =
    | Header(rtype: nat, id: nat, header: Bytes)
    | Payload(data: Bytes)
    | Dropped(data: Bytes)
    | End

  datatype StepResult<S> = StepResult(
    parser: Parser, used: nat, notice: seq<Notice>, state: S, halt: Option<FeedResult>)

  function Halt(r: FrameResult): Option<FeedResult> {
    match r
    case Stop => Some(STOP)
    case Closed => Some(CLOSED)
    case _ => None
  }

  function SkipIf(p: Parser, r: FrameResult): Parser {
    if r == Skip then p.SkipCurrent() else p
  }

  function PayloadStep<S(!new)>(p: Parser, src: Bytes, h: Handler<S>, s: S): (r: StepResult<S>)
    requires Sane(h) && p.Valid() && p.remaining > 0
  {
    if src == [] then
      StepResult(p, 0, [], s, Some(MORE))
    else
      var payload := src[..Min(p.remaining, |src|)];
      var a := h.onPayload(s, payload);
      if a.taken == 0 then
        StepResult(SkipIf(p, a.result), 0, [], a.state,
                   if a.result == Continue then Some(BLOCKING) else Halt(a.result))
      else
        var rest := p.(remaining := p.remaining - a.taken);
        StepResult(SkipIf(rest, a.result), a.taken, [Payload(src[..a.taken])],
                   h.onConsumed(a.state, a.taken),
                   if a.result == Continue && rest.remaining > 0
                   then Some(if a.taken < |payload| then BLOCKING else MORE)
                   else Halt(a.result))
  }

  function SkipStep<S>(p: Parser, src: Bytes, h: Handler<S>, s: S): (r: StepResult<S>)
    requires p.Valid() && p.skip > 0
  {
    var n := Min(p.skip, |src|);
    StepResult(p.(skip := p.skip - n), n, [Dropped(src[..n])], h.onConsumed(s, n),
               if p.skip > |src| then Some(MORE) else None)
  }

  function EndStep<S>(p: Parser, h: Handler<S>, s: S): (r: StepResult<S>)
    requires p.EndPending()
    ensures r.used == 0
  {
    var a := h.onEnd(s);
    StepResult(p.(inFrame := false), 0, [End], a.state, Halt(a.result))
  }

  function HeaderStep<S>(p: Parser, src: Bytes, h: Handler<S>, s: S): (r: StepResult<S>) {
    if |src| < HEADER_SIZE then
      StepResult(p, 0, [], s, Some(MORE))
    else
      var record := Parser(Be16(src[4], src[5]), src[6], true);
      var a := h.onHeader(h.onConsumed(s, HEADER_SIZE), src[1], Be16(src[2], src[3]));
      StepResult(SkipIf(record, a.result), HEADER_SIZE, [Header(src[1], Be16(src[2], src[3]), src[..HEADER_SIZE])],
                 a.state, Halt(a.result))
  }

  /** One move of the parser. */
  function Step<S(!new)>(p: Parser, src: Bytes, h: Handler<S>, s: S): (r: StepResult<S>)
    requires Sane(h) && p.Valid()
    ensures r.parser.Valid() && r.used <= |src|
    ensures r.halt.None? ==> r.used > 0 || r.parser.Rank() < p.Rank()
  {
    if p.remaining > 0 then PayloadStep(p, src, h, s)
    else if p.skip > 0 then SkipStep(p, src, h, s)
    else if p.inFrame then EndStep(p, h, s)
    else HeaderStep(p, src, h, s)
  }

  datatype Outcome<S> = Outcome(
    parser: Parser, used: nat, trace: seq<Notice>, state: S, result: FeedResult)

  /** Moves until one of them halts: the specification of FcgiParser.Feed(). */
  function Drive<S(!new)>(p: Parser, src: Bytes, h: Handler<S>, s: S): (o: Outcome<S>)
    requires Sane(h) && p.Valid()
    ensures o.parser.Valid() && o.used <= |src|
    decreases |src|, p.Rank()
  {
    var r := Step(p, src, h, s);
    match r.halt
    case Some(result) => Outcome(r.parser, r.used, r.notice, r.state, result)
    case None =>
      var o := Drive(r.parser, src[r.used..], h, r.state);
      Outcome(o.parser, r.used + o.used, r.notice + o.trace, o.state, o.result)
  }

  /** Both runs end in the same place. */
  ghost predicate SameEnd<S(!new)>(a: Outcome<S>, b: Outcome<S>) {
    a.parser == b.parser && a.state == b.state && a.result == b.result
  }

  class FcgiParser {
    var remaining: nat
    var skip: nat
    var inFrame: bool

    constructor ()
      ensures Value() == INITIAL
    {
      remaining, skip, inFrame := 0, 0, false;
    }

    /** In the middle of a record. */
    constructor Within(remaining: nat, skip: nat)
      ensures Value() == Parser(remaining, skip, true)
    {
      this.remaining, this.skip, inFrame := remaining, skip, true;
    }

    constructor Copy(other: FcgiParser)
      ensures Value() == other.Value()
    {
      remaining, skip, inFrame := other.remaining, other.skip, other.inFrame;
    }

    function Value(): Parser
      reads this
    {
      Parser(remaining, skip, inFrame)
    }

    method SkipCurrent()
      modifies this
      ensures Value() == old(Value()).SkipCurrent()
    {
      skip := skip + remaining;
      remaining := 0;
    }

    method FeedPayload<S(!new)>(src: Bytes, h: Handler<S>, init: S)
      returns (taken: nat, s: S, halt: Option<FeedResult>)
      requires Sane(h) && Value().Valid() && remaining > 0
      modifies this
      ensures var r := PayloadStep(old(Value()), src, h, init);
              Value() == r.parser && taken == r.used && s == r.state && halt == r.halt
    {
      if src == [] {
        return 0, init, Some(MORE);
      }
      var payload := src[..Min(remaining, |src|)];
      var a := h.onPayload(init, payload);
      taken, s := a.taken, a.state;
      if taken > 0 {
        s := h.onConsumed(s, taken);
        remaining := remaining - taken;
      }
      match a.result {
        case Skip =>
          SkipCurrent();
          return taken, s, None;
        case Continue =>
          if taken == 0 {
            return taken, s, Some(BLOCKING);
          }
          if remaining > 0 {
            return taken, s, Some(if taken < |payload| then BLOCKING else MORE);
          }
          return taken, s, None;
        case Stop => return taken, s, Some(STOP);
        case Closed => return taken, s, Some(CLOSED);
      }
    }

    method FeedSkip<S(!new)>(src: Bytes, h: Handler<S>, init: S) returns (used: nat, s: S, halt: Option<FeedResult>)
      requires Value().Valid() && skip > 0
      modifies this
      ensures var r := SkipStep(old(Value()), src, h, init);
              Value() == r.parser && used == r.used && s == r.state && halt == r.halt
    {
      if skip > |src| {
        skip := skip - |src|;
        return |src|, h.onConsumed(init, |src|), Some(MORE);
      }
      used, s, halt := skip, h.onConsumed(init, skip), None;
      skip := 0;
    }

    method FeedEnd<S(!new)>(h: Handler<S>, init: S) returns (s: S, halt: Option<FeedResult>)
      requires Value().EndPending()
      modifies this
      ensures var r := EndStep(old(Value()), h, init); Value() == r.parser && s == r.state && halt == r.halt
    {
      inFrame := false;
      var a := h.onEnd(init);
      s, halt := a.state, None;
      match a.result {
        case Stop => halt := Some(STOP);
        case Closed => halt := Some(CLOSED);
        case _ =>
      }
    }

    method FeedHeader<S(!new)>(src: Bytes, h: Handler<S>, init: S) returns (used: nat, s: S, halt: Option<FeedResult>)
      requires Value().Valid() && !inFrame
      modifies this
      ensures var r := HeaderStep(old(Value()), src, h, init);
              Value() == r.parser && used == r.used && s == r.state && halt == r.halt
    {
      if |src| < HEADER_SIZE {
        return 0, init, Some(MORE);
      }
      inFrame, remaining, skip := true, Be16(src[4], src[5]), src[6];
      s := h.onConsumed(init, HEADER_SIZE);
      var a := h.onHeader(s, src[1], Be16(src[2], src[3]));
      used, s, halt := HEADER_SIZE, a.state, None;
      match a.result {
        case Skip => SkipCurrent();
        case Continue =>
        case Stop => halt := Some(STOP);
        case Closed => halt := Some(CLOSED);
      }
    }

    method Feed<S(!new)>(data: Bytes, h: Handler<S>, init: S) returns (result: FeedResult, s: S)
      requires Sane(h) && Value().Valid()
      modifies this
      ensures Value().Valid()
      ensures var o := Drive(old(Value()), data, h, init);
              Value() == o.parser && s == o.state && result == o.result
    {
      hide PayloadStep, SkipStep, EndStep, HeaderStep;
      ghost var goal := Drive(Value(), data, h, init);
      var src := data;
      s := init;
      while true
        invariant Value().Valid()
        invariant SameEnd(goal, Drive(Value(), src, h, s))
        decreases |src|, Value().Rank()
      {
        ghost var r := Step(Value(), src, h, s);
        assert SameEnd(goal, if r.halt.Some? then Outcome(r.parser, r.used, r.notice, r.state, r.halt.value)
                             else Drive(r.parser, src[r.used..], h, r.state));
        var used, halt := 0, None;
        if remaining > 0 {
          used, s, halt := FeedPayload(src, h, s);
        } else if skip > 0 {
          used, s, halt := FeedSkip(src, h, s);
        } else if inFrame {
          s, halt := FeedEnd(h, s);
        } else {
          used, s, halt := FeedHeader(src, h, s);
        }
        if halt.Some? {
          return halt.value, s;
        }
        src := src[used..];
      }
    }
  }
}
