/**
 The CGI response parser and the client that feeds it: header lines are collected in a
 bounded buffer until a blank line, and everything after that is the response body.
 */
module Cgi {
  import opened Octets
  import opened Fifo

  const NEWLINE: Byte := 10

  /** What the header lines mean is not the parser's business. */
  datatype Rules = Rules(valid: Bytes -> bool, emptyStatus: seq<Bytes> -> bool, length: seq<Bytes> -> Length)

  datatype Length = Unknown | Known(n: nat)

  // The meaning of a whole response, independent of how it arrives

  datatype Scanned =
    | More(lines: seq<Bytes>, pending: Bytes)
    | Done(lines: seq<Bytes>, body: Bytes)
    | Malformed
    | TooLong

  /** The position of the first newline, or the length. */
  function Find(x: Bytes): (k: nat)
    ensures k <= |x|
    ensures NEWLINE !in x[..k]
    ensures k < |x| ==> x[k] == NEWLINE
    decreases |x|
  {
    if x == [] || x[0] == NEWLINE then 0 else 1 + Find(x[1..])
  }

  /** Remove trailing white space and control characters. */
  function Strip(x: Bytes): (r: Bytes)
    ensures r <= x
    decreases |x|
  {
    if x != [] && x[|x| - 1] <= 0x20 then Strip(x[..|x| - 1]) else x
  }

  function Prepend(lines: seq<Bytes>, s: Scanned): Scanned {
    match s
    case More(more, pending) => More(lines + more, pending)
    case Done(more, body) => Done(lines + more, body)
    case _ => s
  }

  /** A line must be shorter than the buffer, must be well-formed, and an empty one ends the headers. */
  function Scan(rules: Rules, cap: nat, x: Bytes): Scanned
    decreases |x|
  {
    var k := Find(x);
    if k >= cap then TooLong
    else if k == |x| then More([], x)
    else if Strip(x[..k]) == [] then Done([], x[k + 1..])
    else if !rules.valid(Strip(x[..k])) then Malformed
    else Prepend([Strip(x[..k])], Scan(rules, cap, x[k + 1..]))
  }

  lemma {:induction false} FindAppend(a: Bytes, b: Bytes)
    ensures Find(a) < |a| ==> Find(a + b) == Find(a)
    ensures Find(a) == |a| ==> Find(a + b) == |a| + Find(b)
    decreases |a|
  {
    if a == [] {
      assert a + b == b;
    } else {
      assert (a + b)[1..] == a[1..] + b;
      FindAppend(a[1..], b);
    }
  }

  lemma PrependPrepend(a: seq<Bytes>, b: seq<Bytes>, s: Scanned)
    ensures Prepend(a, Prepend(b, s)) == Prepend(a + b, s)
  {
    match s
    case More(more, _) => assert a + (b + more) == a + b + more;
    case Done(more, _) => assert a + (b + more) == a + b + more;
    case _ =>
  }

  lemma PrependNone(s: Scanned)
    ensures Prepend([], s) == s
  {
    match s
    case More(more, _) => assert [] + more == more;
    case Done(more, _) => assert [] + more == more;
    case _ =>
  }

  /** How the meaning of a response goes on from the meaning of its beginning. */
  ghost function Continue(rules: Rules, cap: nat, s: Scanned, b: Bytes): Scanned {
    match s
    case More(lines, pending) => Prepend(lines, Scan(rules, cap, pending + b))
    case Done(lines, body) => Done(lines, body + b)
    case _ => s
  }

  lemma {:induction false} ScanAppend(rules: Rules, cap: nat, a: Bytes, b: Bytes)
    ensures Scan(rules, cap, a + b) == Continue(rules, cap, Scan(rules, cap, a), b)
    decreases |a|
  {
    var k := Find(a);
    FindAppend(a, b);
    if k < |a| && k < cap {
      assert (a + b)[..k] == a[..k] && (a + b)[k + 1..] == a[k + 1..] + b;
      if Strip(a[..k]) != [] && rules.valid(Strip(a[..k])) {
        ScanAppend(rules, cap, a[k + 1..], b);
        ContinuePrepend(rules, cap, [Strip(a[..k])], Scan(rules, cap, a[k + 1..]), b);
      }
    } else if k == |a| {
      PrependNone(Scan(rules, cap, a + b));
    }
  }

  lemma ContinuePrepend(rules: Rules, cap: nat, lines: seq<Bytes>, s: Scanned, b: Bytes)
    ensures Continue(rules, cap, Prepend(lines, s), b) == Prepend(lines, Continue(rules, cap, s, b))
  {
    if s.More? {
      PrependPrepend(lines, s.lines, Scan(rules, cap, s.pending + b));
    }
  }

  /** The unfinished line has no newline and leaves room in the buffer. */
  lemma {:induction false} PendingFits(rules: Rules, cap: nat, x: Bytes)
    requires Scan(rules, cap, x).More?
    ensures |Scan(rules, cap, x).pending| < cap
    ensures NEWLINE !in Scan(rules, cap, x).pending
    decreases |x|
  {
    var k := Find(x);
    if k < |x| {
      PendingFits(rules, cap, x[k + 1..]);
    } else {
      assert x[..k] == x;
    }
  }

  /** One complete line. */
  lemma ScanLine(rules: Rules, cap: nat, x: Bytes, k: nat)
    requires k == Find(x) < |x| && k < cap
    ensures var line := Strip(x[..k]);
      Scan(rules, cap, x) == if line == [] then Done([], x[k + 1..]) else
                             if !rules.valid(line) then Malformed else
                             Prepend([line], Scan(rules, cap, x[k + 1..]))
  {
  }

  lemma ScanNoLine(rules: Rules, cap: nat, x: Bytes)
    requires Find(x) == |x|
    ensures Scan(rules, cap, x) == if |x| >= cap then TooLong else Scanned.More([], x)
  {
  }

  predicate EndsWith(x: Bytes, body: Bytes) {
    |body| <= |x| && x[|x| - |body|..] == body
  }

  lemma EndsWithRest(x: Bytes, k: nat, body: Bytes)
    requires k <= |x| && EndsWith(x[k..], body)
    ensures EndsWith(x, body)
  {
    assert x[k..][|x| - k - |body|..] == x[|x| - |body|..];
  }

  lemma {:induction false} BodyIsSuffix(rules: Rules, cap: nat, x: Bytes)
    requires Scan(rules, cap, x).Done?
    ensures |Scan(rules, cap, x).body| < |x|
    ensures EndsWith(x, Scan(rules, cap, x).body)
    decreases |x|
  {
    var k := Find(x);
    var rest, body := x[k + 1..], Scan(rules, cap, x).body;
    ScanLine(rules, cap, x, k);
    hide Scan, EndsWith;
    if Strip(x[..k]) != [] {
      BodyIsSuffix(rules, cap, rest);
    } else {
      assert EndsWith(rest, body) by { EndsWithItself(rest); }
    }
    EndsWithRest(x, k + 1, body);
  }

  lemma EndsWithItself(x: Bytes)
    ensures EndsWith(x, x)
  {
  }

  /** A blank line that the unfinished line has not seen is in the new bytes. */
  lemma BodyIsNew(rules: Rules, cap: nat, pending: Bytes, d: Bytes)
    requires NEWLINE !in pending && Scan(rules, cap, pending + d).Done?
    ensures |Scan(rules, cap, pending + d).body| < |d|
  {
    var x := pending + d;
    var k := Find(x);
    assert Find(pending) == |pending|;
    FindAppend(pending, d);
    ScanLine(rules, cap, x, k);
    hide Scan;
    if Strip(x[..k]) != [] {
      BodyIsSuffix(rules, cap, x[k + 1..]);
    }
  }

  /** The response up to the body is complete without it. */
  lemma HeadIsComplete(rules: Rules, cap: nat, x: Bytes)
    requires Scan(rules, cap, x).Done?
    ensures |Scan(rules, cap, x).body| < |x|
    ensures Scan(rules, cap, x[..|x| - |Scan(rules, cap, x).body|]) == Done(Scan(rules, cap, x).lines, [])
  {
    BodyIsSuffix(rules, cap, x);
    var body := Scan(rules, cap, x).body;
    var head := x[..|x| - |body|];
    assert x == head + body;
    ScanAppend(rules, cap, head, body);
    var s := Scan(rules, cap, head);
    if s.More? {
      PendingFits(rules, cap, head);
      BodyIsNew(rules, cap, s.pending, body);
    }
    hide Scan;
    assert s.Done?;
    assert |s.body + body| == |body|;
  }

  /** How many body bytes the headers allow. */
  function Limit(rules: Rules, lines: seq<Bytes>): Length {
    if rules.emptyStatus(lines) then Known(0) else rules.length(lines)
  }

  predicate Exceeds(n: nat, limit: Length) {
    limit.Known? && n > limit.n
  }

  datatype Reason =
    | NoBody            // the status does not allow a body
    | EmptyBody         // the length is zero
    | Eof               // the whole body has been delivered
    | BadHeader
    | LongHeader
    | TooMuch
    | PrematureHeaders
    | PrematureBody
    | Dropped           // by the handler

  datatype Phase = Alive | Closed(why: Reason)

  datatype Completion = DONE | MORE | THROW(why: Reason)

  /** Why a response is refused, or accepted without a body. */
  ghost predicate Explained(rules: Rules, why: Reason, s: Scanned) {
    match why
    case BadHeader => s.Malformed?
    case LongHeader => s.TooLong?
    case TooMuch => s.Done? && Exceeds(|s.body|, Limit(rules, s.lines))
    case NoBody => s.Done? && rules.emptyStatus(s.lines)
    case EmptyBody => s.Done? && !rules.emptyStatus(s.lines) && rules.length(s.lines) == Known(0)
    case _ => true
  }

  /** New bytes behind an unfinished line. */
  lemma FeedMeans(rules: Rules, cap: nat, taken: Bytes, d: Bytes)
    requires Scan(rules, cap, taken).More?
    ensures var s := Scan(rules, cap, taken);
      Scan(rules, cap, taken + d) == Prepend(s.lines, Scan(rules, cap, s.pending + d))
  {
    ScanAppend(rules, cap, taken, d);
  }

  lemma FeedDone(rules: Rules, cap: nat, taken: Bytes, d: Bytes)
    requires Scan(rules, cap, taken).More? && Scan(rules, cap, taken + d).Done?
    ensures var s := Scan(rules, cap, taken + d);
      |s.body| < |d| && Scan(rules, cap, taken + d[..|d| - |s.body|]) == Done(s.lines, [])
  {
    hide *;
    var s, x := Scan(rules, cap, taken + d), taken + d;
    PendingFits(rules, cap, taken);
    FeedMeans(rules, cap, taken, d);
    PrependDone(Scan(rules, cap, taken).lines, Scan(rules, cap, Scan(rules, cap, taken).pending + d));
    BodyIsNew(rules, cap, Scan(rules, cap, taken).pending, d);
    HeadIsComplete(rules, cap, x);
    assert x[..|x| - |s.body|] == taken + d[..|d| - |s.body|];
  }

  lemma PrependDone(lines: seq<Bytes>, s: Scanned)
    ensures Prepend(lines, s).Done? <==> s.Done?
    ensures s.Done? ==> Prepend(lines, s).body == s.body
  {
  }

  lemma ExplainedStays(rules: Rules, cap: nat, a: Bytes, b: Bytes, why: Reason)
    requires Explained(rules, why, Scan(rules, cap, a))
    ensures Explained(rules, why, Scan(rules, cap, a + b))
  {
    ScanAppend(rules, cap, a, b);
    hide Scan;
  }

  lemma LinesStay(rules: Rules, cap: nat, a: Bytes, b: Bytes)
    requires Scan(rules, cap, a).Done?
    ensures var s := Scan(rules, cap, a + b); s.Done? && s.lines == Scan(rules, cap, a).lines && s.body == Scan(rules, cap, a).body + b
  {
    ScanAppend(rules, cap, a, b);
    hide Scan;
  }

  datatype Found = Blank | Bad | Rest

  ghost predicate FoundIs(cap: nat, data: Bytes, more: seq<Bytes>, next: nat, found: Found, s: Scanned)
    requires next <= |data|
  {
    match found
    case Blank => s == Done(more, data[next..])
    case Bad => s.Malformed?
    case Rest => if next == 0 && |data| >= cap then s.TooLong? else s == Scanned.More(more, data[next..])
  }

  lemma PrependBlank(more: seq<Bytes>, rest: Bytes)
    ensures Prepend(more, Done([], rest)) == Done(more, rest)
    ensures Prepend(more, Scanned.More([], rest)) == Scanned.More(more, rest)
  {
    assert more + [] == more;
  }

  lemma PrependBad(more: seq<Bytes>)
    ensures Prepend(more, Malformed) == Malformed && Prepend(more, TooLong) == TooLong
  {
  }

  /** The loop over the lines of the buffer. */
  method ParseLines(rules: Rules, cap: nat, data: Bytes) returns (more: seq<Bytes>, next: nat, found: Found)
    requires 0 < cap && |data| <= cap
    ensures next <= |data|
    ensures FoundIs(cap, data, more, next, found, Scan(rules, cap, data))
  {
    hide Scan, Prepend;
    more, next := [], 0;
    assert data[0..] == data;
    PrependNone(Scan(rules, cap, data));
    while true
      invariant next <= |data|
      invariant Scan(rules, cap, data) == Prepend(more, Scan(rules, cap, data[next..]))
      decreases |data| - next
    {
      var rest := data[next..];
      var k := Find(rest);
      if k == |rest| {
        ScanNoLine(rules, cap, rest);
        PrependBlank(more, rest);
        PrependBad(more);
        found := Rest;
        return;
      }
      var line := Strip(rest[..k]);
      ScanLine(rules, cap, rest, k);
      assert rest[k + 1..] == data[next + k + 1..];
      if line == [] {
        PrependBlank(more, rest[k + 1..]);
        next, found := next + k + 1, Blank;
        return;
      }
      if !rules.valid(line) {
        PrependBad(more);
        found := Bad;
        return;
      }
      PrependPrepend(more, [line], Scan(rules, cap, rest[k + 1..]));
      more, next := more + [line], next + k + 1;
    }
  }

  /** The client has no reason to refuse the response so far. */
  ghost predicate Acceptable(rules: Rules, s: Scanned) {
    s.More? || (s.Done? && !Exceeds(|s.body|, Limit(rules, s.lines)))
  }

  /** How the end of the input is understood. */
  function EofReason(rules: Rules, s: Scanned): Reason {
    match s
    case Done(lines, _) => if rules.length(lines).Unknown? then Eof else PrematureBody
    case _ => PrematureHeaders
  }

  class CgiClient {
    const rules: Rules
    const cap: nat

    var buffer: Buffer
    var lines: seq<Bytes>
    var finished: bool
    var remaining: Length
    var phase: Phase

    /** The bytes delivered to the response handler, and those consumed from the CGI program. */
    var output: Bytes
    ghost var taken: Bytes

    /** As long as the client is alive, its state is a function of the bytes it has consumed. */
    ghost predicate Valid()
      reads this
    {
      cap > 0 && buffer.Valid(cap) && (phase.Alive? ==>
        if finished then
          && Scan(rules, cap, taken) == Done(lines, output) && !rules.emptyStatus(lines)
          && match rules.length(lines)
             case Unknown => remaining.Unknown?
             case Known(n) => |output| < n && remaining == Known(n - |output|)
        else
          output == [] && Scan(rules, cap, taken) == Scanned.More(lines, buffer.data))
    }

    constructor (rules: Rules, cap: nat)
      requires cap > 0
      ensures Valid() && this.rules == rules && this.cap == cap
      ensures phase.Alive? && !finished && taken == [] && output == []
    {
      this.rules, this.cap := rules, cap;
      buffer, lines, finished, remaining, phase := EMPTY, [], false, Unknown, Alive;
      output := [];
      taken := [];
    }

    /** CGIParser::FeedHeaders(): parse every complete line in the buffer. */
    method ParseHeaders() returns (c: Completion)
      requires cap > 0 && buffer.Valid(cap)
      modifies this`buffer, this`lines, this`finished, this`remaining
      ensures buffer.Valid(cap)
      ensures Parsed(c, old(lines), Scan(rules, cap, old(buffer.data)))
      ensures c.MORE? ==> finished == old(finished)
    {
      hide Scan;
      var more, next, found := ParseLines(rules, cap, buffer.data);
      lines := lines + more;
      match found {
        case Blank =>
          buffer := buffer.Consume(next);
          c := Finish();
        case Bad =>
          c := THROW(BadHeader);
        case Rest =>
          if next > 0 {
            buffer := buffer.Consume(next);
            c := Completion.MORE;
          } else {
            assert buffer.data[0..] == buffer.data;
            c := if |buffer.data| >= cap then THROW(LongHeader) else Completion.MORE;
          }
      }
    }

    ghost predicate Parsed(c: Completion, before: seq<Bytes>, s: Scanned)
      reads this
    {
      match c
      case MORE => s.More? && s.pending == buffer.data && lines == before + s.lines
      case DONE => s.Done? && s.body == buffer.data && lines == before + s.lines
                   && finished && remaining == Limit(rules, lines) && !Exceeds(|buffer.data|, remaining)
      case THROW(why) =>
        match why
        case BadHeader => s.Malformed?
        case LongHeader => s.TooLong?
        case TooMuch => s.Done? && Exceeds(|s.body|, Limit(rules, before + s.lines))
        case _ => false
    }

    /** Evaluate the headers. */
    method Finish() returns (c: Completion)
      modifies this`finished, this`remaining
      ensures remaining == Limit(rules, lines)
      ensures if Exceeds(|buffer.data|, remaining) then c == THROW(TooMuch) && finished == old(finished) else c.DONE? && finished
    {
      if rules.emptyStatus(lines) {
        remaining := Known(0);
      } else {
        remaining := rules.length(lines);
      }
      if remaining.Known? && |buffer.data| > remaining.n {
        return THROW(TooMuch);
      }
      finished := true;
      c := DONE;
    }

    /** The handler gets the response; it may drop the body. */
    method ReturnResponse(keep: bool)
      requires phase.Alive? && finished && remaining == Limit(rules, lines)
      modifies this`phase
      ensures phase == if rules.emptyStatus(lines) then Closed(NoBody) else
                       if rules.length(lines) == Known(0) then Closed(EmptyBody) else
                       if keep then Alive else Closed(Dropped)
    {
      if rules.emptyStatus(lines) {
        phase := Closed(NoBody);
      } else if remaining == Known(0) {
        phase := Closed(EmptyBody);
      } else if !keep {
        phase := Closed(Dropped);
      }
    }

    /** The bytes of `src` that were put into the buffer have been parsed. */
    ghost predicate Fed(taken0: Bytes, src: Bytes, n: nat)
      reads this
    {
      match phase
      case Alive => 0 < n <= |src| && taken == taken0 + src[..n] && output == []
      case Closed(why) => n == 0 && why !in {Eof, PrematureHeaders, PrematureBody}
                          && Explained(rules, why, Scan(rules, cap, taken0 + src))
                          && (why.NoBody? || why.EmptyBody? ==> Scan(rules, cap, taken0 + src).lines == lines)
    }

    method FeedHeaders(src: Bytes, keep: bool) returns (n: nat)
      requires Valid() && phase.Alive? && !finished && src != []
      modifies this
      ensures Valid() && Fed(old(taken), src, n)
      ensures keep ==> phase != Closed(Dropped)
    {
      hide Scan;
      PendingFits(rules, cap, taken);
      var d := src[..Min(|src|, buffer.Room(cap))];
      assert src == d + src[|d|..];
      ghost var s := Scan(rules, cap, taken + d);
      FeedMeans(rules, cap, taken, d);
      buffer := buffer.Append(cap, d);
      var c := ParseHeaders();
      assert taken + src == (taken + d) + src[|d|..];
      match c {
        case DONE =>
          FeedDone(rules, cap, taken, d);
          assert |buffer.data| < |d|;
          ReturnResponse(keep);
          if !phase.Alive? {
            ExplainedStays(rules, cap, taken + d, src[|d|..], phase.why);
            LinesStay(rules, cap, taken + d, src[|d|..]);
            return 0;
          }
          n := |d| - |buffer.data|;
          taken := taken + d[..n];
          assert d[..n] == src[..n];
        case MORE =>
          n := |d|;
          taken := taken + d;
        case THROW(why) =>
          ExplainedStays(rules, cap, taken + d, src[|d|..], why);
          phase := Closed(why);
          return 0;
      }
    }

    method FeedHeadersLoop(src: Bytes, keep: bool) returns (n: nat)
      requires Valid() && phase.Alive? && !finished && src != []
      modifies this
      ensures Valid() && Fed(old(taken), src, n)
      ensures phase.Alive? ==> n == |src| || finished
      ensures keep ==> phase != Closed(Dropped)
    {
      hide Scan;
      n := 0;
      assert taken + [] == taken && src[0..] == src;
      while true
        invariant n < |src| && Valid() && phase.Alive? && !finished
        invariant taken == old(taken) + src[..n] && output == []
        decreases |src| - n
      {
        var k := FeedHeaders(src[n..], keep);
        assert old(taken) + src[..n] + src[n..] == old(taken) + src;
        if k == 0 {
          return 0;
        }
        assert src[..n] + src[n..][..k] == src[..n + k];
        assert old(taken) + src[..n] + src[n..][..k] == old(taken) + src[..n + k];
        n := n + k;
        if n == |src| || finished {
          return;
        }
      }
    }

    /** What happens to body bytes. */
    ghost predicate Passed(taken0: Bytes, src: Bytes, n: nat)
      reads this
    {
      match phase
      case Alive => n <= |src| && taken == taken0 + src[..n]
                    && Scan(rules, cap, taken0 + src).Done? && Acceptable(rules, Scan(rules, cap, taken0 + src))
      case Closed(why) =>
        match why
        case Eof => Scan(rules, cap, taken) == Done(lines, output) && rules.length(lines) == Known(|output|)
                    && !rules.emptyStatus(lines) && output != [] && taken == taken0 + src
        case TooMuch => Explained(rules, TooMuch, Scan(rules, cap, taken0 + src))
        case _ => false
    }

    /** The response handler accepts `accept` bytes. */
    method FeedBody(src: Bytes, accept: nat) returns (n: nat)
      requires Valid() && phase.Alive? && finished
      modifies this
      ensures Valid() && Passed(old(taken), src, n)
      ensures phase.Closed? ==> n == 0
      ensures phase.Alive? && accept >= |src| ==> n == |src|
      ensures finished && lines == old(lines)
    {
      hide Scan;
      ScanAppend(rules, cap, taken, src);
      if remaining.Known? && |src| > remaining.n {
        phase := Closed(TooMuch);
        return 0;
      }
      n := Min(accept, |src|);
      ScanAppend(rules, cap, taken, src[..n]);
      output := output + src[..n];
      taken := taken + src[..n];
      if n > 0 && remaining.Known? {
        remaining := Known(remaining.n - n);
        if remaining.n == 0 {
          assert src[..n] == src;
          phase := Closed(Eof);
          n := 0;
        }
      }
    }

    /** A chunk has either been consumed up to some point, or the client is closed for a reason that the bytes explain. */
    method OnData(src: Bytes, keep: bool, accept: nat) returns (n: nat)
      requires Valid() && phase.Alive? && src != []
      modifies this
      ensures Valid()
      ensures phase.Alive? ==> n <= |src| && taken == old(taken) + src[..n]
      ensures phase.Alive? ==> Acceptable(rules, Scan(rules, cap, old(taken) + src))
      ensures phase.Alive? && !finished ==> n == |src|
      ensures phase.Alive? && !old(finished) ==> n > 0
      ensures phase.Closed? ==> n == 0 && Explained(rules, phase.why, Scan(rules, cap, old(taken) + src))
      ensures phase == Closed(Eof) ==> Scan(rules, cap, taken) == Done(lines, output) && rules.length(lines) == Known(|output|)
                                       && !rules.emptyStatus(lines) && output != [] && taken == old(taken) + src
      ensures phase.Alive? && accept >= |src| ==> n == |src|
      ensures phase.Closed? && (phase.why.NoBody? || phase.why.EmptyBody?) ==> Scan(rules, cap, old(taken) + src).lines == lines
      ensures phase.Closed? ==> phase.why !in {PrematureHeaders, PrematureBody} && (keep ==> phase.why != Dropped)
    {
      hide Scan;
      if finished {
        n := FeedBody(src, accept);
        return;
      }
      n := FeedHeadersLoop(src, keep);
      assert src[..|src|] == src;
      if n > 0 && n < |src| && finished {
        var n2 := FeedBody(src[n..], accept);
        assert old(taken) + src[..n] + src[n..] == old(taken) + src;
        if phase.Closed? {
          n := 0;
        } else {
          assert src[..n] + src[n..][..n2] == src[..n + n2];
          assert old(taken) + src[..n] + src[n..][..n2] == old(taken) + src[..n + n2];
          n := n + n2;
        }
      }
    }

    /** The CGI program has closed its output: that is fine only if the length was not declared. */
    method OnEof()
      requires Valid() && phase.Alive?
      modifies this`phase
      ensures phase == Closed(EofReason(rules, Scan(rules, cap, taken)))
    {
      hide Scan;
      if !finished {
        phase := Closed(PrematureHeaders);
      } else if remaining.Known? && remaining.n > 0 {
        phase := Closed(PrematureBody);
      } else {
        phase := Closed(Eof);
      }
    }
  }

  /** However the bytes arrived: the same bytes lead to the same headers, the same body and the same rest. */
  lemma FragmentationIrrelevant(a: CgiClient, b: CgiClient)
    requires a.Valid() && b.Valid() && a.phase.Alive? && b.phase.Alive?
    requires a.rules == b.rules && a.cap == b.cap && a.taken == b.taken
    ensures a.finished == b.finished && a.lines == b.lines && a.output == b.output
    ensures if a.finished then a.remaining == b.remaining else a.buffer.data == b.buffer.data
  {
    hide Scan;
  }

  /** The delivered body is what follows the blank line, and an unfinished header line is all that the buffer holds. */
  lemma AliveMeans(c: CgiClient)
    requires c.Valid() && c.phase.Alive?
    ensures c.finished ==> exists head :: c.taken == head + c.output && Scan(c.rules, c.cap, head) == Done(c.lines, [])
    ensures !c.finished ==> NEWLINE !in c.buffer.data && |c.buffer.data| < c.cap
  {
    hide Scan;
    if c.finished {
      HeadIsComplete(c.rules, c.cap, c.taken);
      BodyIsSuffix(c.rules, c.cap, c.taken);
      var head := c.taken[..|c.taken| - |c.output|];
      assert c.taken == head + c.output;
    } else {
      PendingFits(c.rules, c.cap, c.taken);
    }
  }

  // A whole response

  function Flat(chunks: seq<Bytes>): Bytes {
    if chunks == [] then [] else Flat(chunks[..|chunks| - 1]) + chunks[|chunks| - 1]
  }

  lemma {:induction false} FlatPrefix(chunks: seq<Bytes>, k: nat)
    requires k <= |chunks|
    ensures Flat(chunks[..k]) <= Flat(chunks)
    decreases |chunks|
  {
    if k == |chunks| {
      assert chunks[..k] == chunks;
    } else {
      var front := chunks[..|chunks| - 1];
      assert front[..k] == chunks[..k];
      FlatPrefix(front, k);
    }
  }

  /** How a response ends that does not have more data than it declares. */
  function Verdict(rules: Rules, s: Scanned): Reason {
    match s
    case Malformed => BadHeader
    case TooLong => LongHeader
    case More(_, _) => PrematureHeaders
    case Done(lines, body) =>
      if rules.emptyStatus(lines) then NoBody else
      match rules.length(lines)
      case Unknown => Eof
      case Known(n) => if n == 0 then EmptyBody else if |body| < n then PrematureBody else Eof
  }

  ghost predicate Excessive(rules: Rules, s: Scanned) {
    s.Done? && Exceeds(|s.body|, Limit(rules, s.lines))
  }

  /** What the client has made of the whole response; only one with excess data may end in different ways. */
  ghost predicate Judged(rules: Rules, s: Scanned, why: Reason, lines: seq<Bytes>, output: Bytes) {
    if Excessive(rules, s) then why in {TooMuch, NoBody, EmptyBody, Eof}
    else why == Verdict(rules, s)
         && (s.Done? ==> lines == s.lines && (why.Eof? || why.PrematureBody? ==> output == s.body))
  }

  /** The client was closed by a beginning of the response. */
  lemma ClosedEarly(rules: Rules, cap: nat, head: Bytes, all: Bytes, why: Reason, lines: seq<Bytes>, output: Bytes)
    requires head <= all && Explained(rules, why, Scan(rules, cap, head)) && why !in {Dropped, PrematureHeaders, PrematureBody}
    requires why.NoBody? || why.EmptyBody? ==> Scan(rules, cap, head).lines == lines
    requires why.Eof? ==> Scan(rules, cap, head) == Done(lines, output) && rules.length(lines) == Known(|output|)
                          && !rules.emptyStatus(lines) && output != []
    ensures Judged(rules, Scan(rules, cap, all), why, lines, output)
  {
    hide Scan;
    var rest := all[|head|..];
    assert all == head + rest;
    ExplainedStays(rules, cap, head, rest, why);
    if Scan(rules, cap, head).Done? {
      LinesStay(rules, cap, head, rest);
      if why.Eof? && !Excessive(rules, Scan(rules, cap, all)) {
        assert |output + rest| <= |output|;
        assert output + rest == output;
      }
    }
  }

  /** The client was still alive when the response ended. */
  lemma ClosedLate(c: CgiClient)
    requires c.Valid() && c.phase.Alive?
    ensures var s := Scan(c.rules, c.cap, c.taken); Judged(c.rules, s, EofReason(c.rules, s), c.lines, c.output)
  {
    hide Scan;
  }

  /**
   Any chunks, a handler that wants all of the response: headers, body and the way it ends are those of the
   bytes, unless there are more of them than the headers declare.
   */
  method Respond(rules: Rules, cap: nat, chunks: seq<Bytes>) returns (why: Reason, lines: seq<Bytes>, output: Bytes)
    requires cap > 0
    ensures Judged(rules, Scan(rules, cap, Flat(chunks)), why, lines, output)
  {
    hide Scan, Judged, Explained;
    var client := new CgiClient(rules, cap);
    var k := 0;
    ghost var all := Flat(chunks);
    while k < |chunks|
      invariant k <= |chunks| && fresh(client) && client.rules == rules && client.cap == cap
      invariant client.Valid() && client.phase.Alive? && client.taken == Flat(chunks[..k])
    {
      var src := chunks[k];
      assert chunks[..k + 1][..k] == chunks[..k];
      if src == [] {
        assert Flat(chunks[..k]) + [] == Flat(chunks[..k]);
      } else {
        var n := client.OnData(src, true, |src|);
        assert src[..|src|] == src;
        if client.phase.Closed? {
          FlatPrefix(chunks, k + 1);
          ClosedEarly(rules, cap, Flat(chunks[..k + 1]), all, client.phase.why, client.lines, client.output);
          return client.phase.why, client.lines, client.output;
        }
      }
      k := k + 1;
    }
    assert chunks[..k] == chunks;
    ClosedLate(client);
    client.OnEof();
    return client.phase.why, client.lines, client.output;
  }
}
