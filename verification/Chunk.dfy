/**
 HttpChunkParser: the incremental parser for the chunked transfer coding (section 7.1 of
 RFC 9112), against an automaton that reads one byte at a time.
 */
module Chunk {
  import opened Octets

  const CR: Byte := 13
  const LF: Byte := 10

  /** The number of values of a 64 bit size_t. */
  const SIZES: nat := 0x1_0000_0000_0000_0000

  // The automaton

  datatype Auto =
    | None
    | Size(size: nat)
    | AfterSize(size: nat)
    | InData(left: nat)
    | AfterData
    | Trailer
    | TrailerData
    | End
    | Bad

  function SizeLine(size: nat, b: Byte): Auto {
    if b != LF then AfterSize(size) else if size == 0 then Trailer else InData(size)
  }

  function Step(a: Auto, b: Byte): Auto {
    match a
    case None => if IsHex(b) then Size(HexDigit(b)) else Bad
    case Size(n) => if IsHex(b) then Size((n * 16 + HexDigit(b)) % SIZES) else SizeLine(n, b)
    case AfterSize(n) => SizeLine(n, b)
    case InData(n) => if n > 1 then InData(n - 1) else AfterData
    case AfterData => if b == LF then None else if b == CR then AfterData else Bad
    case Trailer => if b == LF then End else if b == CR then Trailer else TrailerData
    case TrailerData => if b == LF then Trailer else TrailerData
    case End => End
    case Bad => Bad
  }

  function After(a: Auto, bytes: Bytes): Auto
    decreases |bytes|
  {
    if bytes == [] then a else After(Step(a, bytes[0]), bytes[1..])
  }

  /** The chunk data among the bytes. */
  function Payload(a: Auto, bytes: Bytes): Bytes
    decreases |bytes|
  {
    if bytes == [] then [] else
    (if a.InData? then [bytes[0]] else []) + Payload(Step(a, bytes[0]), bytes[1..])
  }

  lemma Joined(a: Bytes, b: Bytes, c: Bytes)
    ensures a + (b + c) == a + b + c
  {
  }

  /** The automaton does not notice where the stream was cut. */
  lemma {:induction false} Concat(a: Auto, x: Bytes, y: Bytes)
    ensures After(a, x + y) == After(After(a, x), y)
    ensures Payload(a, x + y) == Payload(a, x) + Payload(After(a, x), y)
    decreases |x|
  {
    hide Step;
    if x == [] {
      assert x + y == y;
    } else {
      var xy := x + y;
      assert xy[0] == x[0] && xy[1..] == x[1..] + y;
      Concat(Step(a, x[0]), x[1..], y);
      Joined(if a.InData? then [x[0]] else [], Payload(Step(a, x[0]), x[1..]), Payload(After(a, x), y));
    }
  }

  lemma One(a: Auto, b: Byte)
    ensures After(a, [b]) == Step(a, b)
    ensures Payload(a, [b]) == if a.InData? then [b] else []
  {
    assert [b][1..] == [];
  }

  lemma {:induction false} BadStays(x: Bytes)
    ensures After(Bad, x) == Bad
    decreases |x|
  {
    if x != [] {
      BadStays(x[1..]);
    }
  }

  function Less(n: nat, k: nat): Auto
    requires k <= n
  {
    if k < n then InData(n - k) else AfterData
  }

  lemma {:induction false} DataRun(n: nat, d: Bytes)
    requires 0 < |d| <= n
    ensures After(InData(n), d) == Less(n, |d|)
    ensures Payload(InData(n), d) == d
    decreases |d|
  {
    if |d| == 1 {
      assert d == [d[0]];
      One(InData(n), d[0]);
    } else {
      DataRun(n - 1, d[1..]);
    }
  }

  // The parser

  datatype State = NONE | SIZE | AFTER_SIZE | DATA | AFTER_DATA | TRAILER | TRAILER_DATA | END

  datatype Result = Found(pos: nat, length: nat) | Throw

  class HttpChunkParser {
    var state: State
    var remainingChunk: nat

    ghost predicate Valid()
      reads this
    {
      remainingChunk < SIZES && (state.DATA? ==> remainingChunk > 0)
    }

    ghost function Value(): Auto
      reads this
    {
      match state
      case NONE => None
      case SIZE => Size(remainingChunk)
      case AFTER_SIZE => AfterSize(remainingChunk)
      case DATA => InData(remainingChunk)
      case AFTER_DATA => AfterData
      case TRAILER => Trailer
      case TRAILER_DATA => TrailerData
      case END => End
    }

    constructor ()
      ensures Valid() && Value() == None
    {
      state, remainingChunk := NONE, 0;
    }

    /** One turn of the loop; leaving the size consumes nothing. */
    method Turn(ch: Byte) returns (next: Next)
      requires Valid() && !state.END? && !state.DATA?
      modifies this
      ensures match next
        case Advance => Valid() && Value() == Step(old(Value()), ch)
        case Stay => Valid() && old(state).SIZE? && state.AFTER_SIZE? && remainingChunk == old(remainingChunk) && !IsHex(ch)
        case Fail => Step(old(Value()), ch) == Bad
    {
      next := Advance;
      match state {
        case NONE =>
          if !IsHex(ch) {
            return Fail;
          }
          state, remainingChunk := SIZE, HexDigit(ch);
        case SIZE =>
          if !IsHex(ch) {
            state := AFTER_SIZE;
            return Stay;
          }
          remainingChunk := (remainingChunk * 16 + HexDigit(ch)) % SIZES;
        case AFTER_SIZE =>
          if ch == LF {
            state := if remainingChunk == 0 then TRAILER else DATA;
          }
        case AFTER_DATA =>
          if ch == LF {
            state := NONE;
          } else if ch != CR {
            return Fail;
          }
        case TRAILER =>
          if ch == LF {
            state := END;
          } else if ch != CR {
            state := TRAILER_DATA;
          }
        case TRAILER_DATA =>
          if ch == LF {
            state := TRAILER;
          }
      }
    }

    /** Find the next data chunk. */
    method Parse(input: Bytes) returns (r: Result)
      requires Valid() && !state.END?
      modifies this
      ensures r.Throw? ==> After(old(Value()), input) == Bad
      ensures r.Found? ==>
        && Valid() && r.pos + r.length <= |input|
        && Reads(old(Value()), input[..r.pos], Value())
        && (r.length > 0 ==> state.DATA? && r.length == Min(|input| - r.pos, remainingChunk))
        && (r.length == 0 ==> r.pos == |input| || (state.END? && r.pos > 0))
    {
      hide After, Payload, Step, Reads;
      ghost var a := Value();
      var p := 0;
      Nothing(a);
      while p < |input|
        invariant p <= |input| && Valid() && !state.END?
        invariant Reads(a, input[..p], Value()) || (p < |input| && state.AFTER_SIZE? && !IsHex(input[p]) && Reads(a, input[..p], Size(remainingChunk)))
        decreases |input| - p, state.SIZE?
      {
        var ch := input[p];
        if state.DATA? {
          return Found(p, Min(|input| - p, remainingChunk));
        }
        ghost var before := if Reads(a, input[..p], Value()) then Value() else Size(remainingChunk);
        if !IsHex(ch) {
          SizeEnds(remainingChunk, ch);
        }
        var next := Turn(ch);
        match next {
          case Stay =>
          case Fail =>
            ReadsBad(a, input, p, before);
            return Throw;
          case Advance =>
            ReadsOne(a, input, p, before);
            p := p + 1;
            if state.END? {
              return Found(p, 0);
            }
        }
      }
      r := Found(p, 0);
    }

    /** Some of the data that Parse() has found has been used. */
    method Consume(n: nat) returns (finished: bool)
      requires Valid() && state.DATA? && 0 < n <= remainingChunk
      modifies this
      ensures Valid() && Value() == Less(old(remainingChunk), n)
      ensures finished <==> state.AFTER_DATA?
    {
      remainingChunk := remainingChunk - n;
      finished := remainingChunk == 0;
      if finished {
        state := AFTER_DATA;
      }
    }

    /** Parse a fragment and use up to `accept` bytes of the data it contains. */
    method Feed(input: Bytes, accept: nat) returns (ok: bool, n: nat, output: Bytes)
      requires Valid() && !state.END?
      modifies this
      ensures if ok then
          Valid() && n <= |input| && Value() == After(old(Value()), input[..n]) && output == Payload(old(Value()), input[..n])
          && (accept > 0 && input != [] ==> n > 0)
        else After(old(Value()), input) == Bad
    {
      hide After, Payload, Step;
      var r := Parse(input);
      if r.Throw? {
        return false, 0, [];
      }
      ghost var a := old(Value());
      n, output, ok := r.pos, [], true;
      var k := Min(accept, r.length);
      if k > 0 {
        output := input[r.pos..r.pos + k];
        DataRun(remainingChunk, output);
        Concat(a, input[..r.pos], output);
        n := r.pos + k;
        assert input[..n] == input[..r.pos] + output;
        assert [] + output == output;
        var _ := Consume(k);
      }
    }
  }

  datatype Next = Advance | Stay | Fail

  /** The bytes contain no data and lead from one state to the other. */
  ghost predicate Reads(a: Auto, x: Bytes, a': Auto) {
    After(a, x) == a' && Payload(a, x) == []
  }

  lemma Nothing(a: Auto)
    ensures Reads(a, [], a)
  {
  }

  lemma ReadsOne(a: Auto, input: Bytes, p: nat, a': Auto)
    requires p < |input| && Reads(a, input[..p], a') && !a'.InData?
    ensures Reads(a, input[..p + 1], Step(a', input[p]))
  {
    hide Step;
    assert input[..p + 1] == input[..p] + [input[p]];
    Concat(a, input[..p], [input[p]]);
    One(a', input[p]);
  }

  lemma ReadsBad(a: Auto, input: Bytes, p: nat, a': Auto)
    requires p < |input| && Reads(a, input[..p], a') && !a'.InData? && Step(a', input[p]) == Bad
    ensures After(a, input) == Bad
  {
    hide Step;
    ReadsOne(a, input, p, a');
    assert input == input[..p + 1] + input[p + 1..];
    Concat(a, input[..p + 1], input[p + 1..]);
    BadStays(input[p + 1..]);
  }

  lemma SizeEnds(n: nat, ch: Byte)
    requires !IsHex(ch)
    ensures Step(Size(n), ch) == Step(AfterSize(n), ch)
  {
  }

  /**
   Decode a stream that arrives in fragments: the k-th call sees up to `cuts[k]` bytes, and the
   consumer uses up to `accepts[k]` bytes of the data found in them.  If no call comes without new
   bytes or without room for data, each of them gets further.
   */
  method Decode(input: Bytes, cuts: seq<nat>, accepts: seq<nat>) returns (ok: bool, n: nat, output: Bytes, ended: bool)
    requires |cuts| == |accepts|
    ensures if ok then n <= |input| && output == Payload(None, input[..n]) && (ended <==> After(None, input[..n]) == End)
            else After(None, input) == Bad
    ensures ok && !ended && 0 !in cuts && 0 !in accepts ==> n >= Min(|cuts|, |input|)
  {
    hide After, Payload, Step;
    var parser := new HttpChunkParser();
    ok, n, output, ended := true, 0, [], false;
    var k := 0;
    PayloadNothing(None);
    while k < |cuts| && !ended
      invariant k <= |cuts| && n <= |input| && parser.Valid()
      invariant After(None, input[..n]) == parser.Value() && Payload(None, input[..n]) == output
      invariant ended <==> parser.state.END?
      invariant 0 !in cuts && 0 !in accepts ==> n >= Min(k, |input|)
    {
      var window := input[n..n + Min(cuts[k], |input| - n)];
      var fine, m, more := parser.Feed(window, accepts[k]);
      if !fine {
        BadWindow(input, n, window);
        return false, n, output, false;
      }
      Advance(input, n, window, m);
      output, n, k := output + more, n + m, k + 1;
      ended := parser.state.END?;
    }
  }

  lemma Advance(input: Bytes, n: nat, window: Bytes, m: nat)
    requires n + |window| <= |input| && window == input[n..n + |window|] && m <= |window|
    ensures After(None, input[..n + m]) == After(After(None, input[..n]), window[..m])
    ensures Payload(None, input[..n + m]) == Payload(None, input[..n]) + Payload(After(None, input[..n]), window[..m])
  {
    hide After, Payload;
    assert input[..n + m] == input[..n] + window[..m];
    Concat(None, input[..n], window[..m]);
  }

  lemma PayloadNothing(a: Auto)
    ensures After(a, []) == a && Payload(a, []) == []
  {
  }

  lemma BadWindow(input: Bytes, n: nat, window: Bytes)
    requires n + |window| <= |input| && window == input[n..n + |window|]
    requires After(After(None, input[..n]), window) == Bad
    ensures After(None, input) == Bad
  {
    hide After, Payload, Step;
    var m := n + |window|;
    Advance(input, n, window, |window|);
    assert window[..|window|] == window;
    assert input == input[..m] + input[m..];
    Concat(None, input[..m], input[m..]);
    BadStays(input[m..]);
  }

  // The encoding

  predicate AllHex(d: Bytes) {
    forall k :: 0 <= k < |d| ==> IsHex(d[k])
  }

  function HexValue(d: Bytes): nat
    requires AllHex(d)
    decreases |d|
  {
    if d == [] then 0 else 16 * HexValue(d[..|d| - 1]) + HexDigit(d[|d| - 1])
  }

  /** Anything between the size and the end of the line, such as chunk extensions and a carriage return. */
  predicate ValidExt(ext: Bytes) {
    LF !in ext && (ext != [] ==> !IsHex(ext[0]))
  }

  datatype Piece = Piece(size: Bytes, ext: Bytes, data: Bytes) {
    /** The size may have leading zeros; only its lowest 64 bits matter. */
    predicate Valid() {
      size != [] && AllHex(size) && HexValue(size) % SIZES == |data| && ValidExt(ext)
    }
  }

  predicate ValidTrailer(line: Bytes) {
    line != [] && line[0] != CR && LF !in line
  }

  function EncodeHead(p: Piece): Bytes {
    p.size + (p.ext + [LF])
  }

  function EncodeAll(pieces: seq<Piece>): Bytes
    decreases |pieces|
  {
    if pieces == [] then [] else EncodeHead(pieces[0]) + (pieces[0].data + [CR, LF]) + EncodeAll(pieces[1..])
  }

  function EncodeTrailers(lines: seq<Bytes>): Bytes
    decreases |lines|
  {
    if lines == [] then [CR, LF] else (lines[0] + [LF]) + EncodeTrailers(lines[1..])
  }

  function DataOf(pieces: seq<Piece>): Bytes
    decreases |pieces|
  {
    if pieces == [] then [] else pieces[0].data + DataOf(pieces[1..])
  }

  lemma ModStep(n: nat, d: nat)
    ensures ((n % 0x1_0000_0000_0000_0000) * 16 + d) % 0x1_0000_0000_0000_0000 == (16 * n + d) % 0x1_0000_0000_0000_0000
  {
  }

  lemma SizeStep(n: nat, b: Byte)
    requires IsHex(b)
    ensures Step(Size(n % SIZES), b) == Size((16 * n + HexDigit(b)) % SIZES)
  {
    ModStep(n, HexDigit(b));
  }

  /** The size is read modulo the width of size_t. */
  lemma {:induction false} SizeIsModular(d: Bytes)
    requires d != [] && AllHex(d)
    ensures Reads(None, d, Size(HexValue(d) % SIZES))
    decreases |d|
  {
    var front, last := d[..|d| - 1], d[|d| - 1];
    assert d[..|d| - 1] == front && d[..|d|] == d;
    assert HexValue(d) == 16 * HexValue(front) + HexDigit(last);
    if front == [] {
      assert d == [last];
      One(None, last);
      assert HexValue(d) == HexDigit(last);
    } else {
      SizeIsModular(front);
      hide Step, After, Payload, HexValue, Reads;
      ReadsOne(None, d, |d| - 1, Size(HexValue(front) % SIZES));
      SizeStep(HexValue(front), last);
    }
  }

  lemma ReadsMore(a: Auto, x: Bytes, b: Auto, y: Bytes, c: Auto)
    requires Reads(a, x, b) && Reads(b, y, c)
    ensures Reads(a, x + y, c)
  {
    hide After, Payload;
    Concat(a, x, y);
  }

  lemma {:induction false} ReadsExt(n: nat, ext: Bytes)
    requires LF !in ext
    ensures Reads(AfterSize(n), ext + [LF], SizeLine(n, LF))
    decreases |ext|
  {
    var x := ext + [LF];
    if ext == [] {
      assert x == [LF];
      One(AfterSize(n), LF);
    } else {
      assert x[1..] == ext[1..] + [LF];
      ReadsExt(n, ext[1..]);
    }
  }

  /** The rest of the line after the size. */
  lemma ReadsSizeLine(n: nat, ext: Bytes)
    requires ValidExt(ext)
    ensures Reads(Size(n), ext + [LF], SizeLine(n, LF))
  {
    var x := ext + [LF];
    ReadsExt(n, ext);
    SizeEnds(n, x[0]);
  }

  lemma ReadsHead(p: Piece)
    requires p.Valid()
    ensures Reads(None, EncodeHead(p), SizeLine(|p.data|, LF))
  {
    hide Reads;
    SizeIsModular(p.size);
    ReadsSizeLine(|p.data|, p.ext);
    ReadsMore(None, p.size, Size(|p.data|), p.ext + [LF], SizeLine(|p.data|, LF));
  }

  lemma ReadsNewline()
    ensures Reads(AfterData, [CR, LF], None) && Reads(Trailer, [CR, LF], End)
  {
    assert [CR, LF] == [CR] + [LF];
    One(AfterData, CR);
    One(AfterData, LF);
    One(Trailer, CR);
    One(Trailer, LF);
    ReadsMore(AfterData, [CR], AfterData, [LF], None);
    ReadsMore(Trailer, [CR], Trailer, [LF], End);
  }

  lemma {:induction false} ReadsTrailerData(line: Bytes)
    requires LF !in line
    ensures Reads(TrailerData, line + [LF], Trailer)
    decreases |line|
  {
    var x := line + [LF];
    if line == [] {
      assert x == [LF];
      One(TrailerData, LF);
    } else {
      assert x[1..] == line[1..] + [LF];
      ReadsTrailerData(line[1..]);
    }
  }

  lemma ReadsTrailer(line: Bytes)
    requires ValidTrailer(line)
    ensures Reads(Trailer, line + [LF], Trailer)
  {
    var x := line + [LF];
    assert x[1..] == line[1..] + [LF];
    ReadsTrailerData(line[1..]);
  }

  lemma {:induction false} ReadsTrailers(lines: seq<Bytes>)
    requires forall k :: 0 <= k < |lines| ==> ValidTrailer(lines[k])
    ensures Reads(Trailer, EncodeTrailers(lines), End)
    decreases |lines|
  {
    hide Reads;
    if lines == [] {
      ReadsNewline();
    } else {
      ReadsTrailer(lines[0]);
      ReadsTrailers(lines[1..]);
      ReadsMore(Trailer, lines[0] + [LF], Trailer, EncodeTrailers(lines[1..]), End);
    }
  }

  ghost predicate Yields(a: Auto, x: Bytes, d: Bytes, a': Auto) {
    After(a, x) == a' && Payload(a, x) == d
  }

  lemma YieldsMore(a: Auto, x: Bytes, d: Bytes, b: Auto, y: Bytes, e: Bytes, c: Auto)
    requires Yields(a, x, d, b) && Yields(b, y, e, c)
    ensures Yields(a, x + y, d + e, c)
  {
    hide After, Payload;
    Concat(a, x, y);
  }

  lemma YieldsPiece(p: Piece)
    requires p.Valid() && p.data != []
    ensures Yields(None, EncodeHead(p) + (p.data + [CR, LF]), p.data, None)
  {
    hide After, Payload;
    var n := |p.data|;
    ReadsHead(p);
    DataRun(n, p.data);
    ReadsNewline();
    assert p.data + [] == p.data && [] + p.data == p.data;
    YieldsMore(InData(n), p.data, p.data, AfterData, [CR, LF], [], None);
    YieldsMore(None, EncodeHead(p), [], InData(n), p.data + [CR, LF], p.data, None);
  }

  lemma {:induction false} YieldsAll(pieces: seq<Piece>)
    requires forall k :: 0 <= k < |pieces| ==> pieces[k].Valid() && pieces[k].data != []
    ensures Yields(None, EncodeAll(pieces), DataOf(pieces), None)
    decreases |pieces|
  {
    if pieces == [] {
      PayloadNothing(None);
    } else {
      hide Yields;
      YieldsPiece(pieces[0]);
      YieldsAll(pieces[1..]);
      YieldsMore(None, EncodeHead(pieces[0]) + (pieces[0].data + [CR, LF]), pieces[0].data, None,
                 EncodeAll(pieces[1..]), DataOf(pieces[1..]), None);
    }
  }

  /** A whole message: chunks, the last chunk, trailers. */
  function EncodeMessage(pieces: seq<Piece>, last: Piece, trailers: seq<Bytes>): Bytes {
    EncodeAll(pieces) + (EncodeHead(last) + EncodeTrailers(trailers))
  }

  predicate ValidMessage(pieces: seq<Piece>, last: Piece, trailers: seq<Bytes>) {
    && (forall k :: 0 <= k < |pieces| ==> pieces[k].Valid() && pieces[k].data != [])
    && last.Valid() && last.data == []
    && (forall k :: 0 <= k < |trailers| ==> ValidTrailer(trailers[k]))
  }

  /** Decoding gives back the data, and the end is reached with the last byte. */
  lemma MessageDecodes(pieces: seq<Piece>, last: Piece, trailers: seq<Bytes>)
    requires ValidMessage(pieces, last, trailers)
    ensures After(None, EncodeMessage(pieces, last, trailers)) == End
    ensures Payload(None, EncodeMessage(pieces, last, trailers)) == DataOf(pieces)
  {
    hide After, Payload, EncodeAll, EncodeHead, EncodeTrailers, DataOf;
    YieldsAll(pieces);
    ReadsHead(last);
    ReadsTrailers(trailers);
    ReadsMore(None, EncodeHead(last), Trailer, EncodeTrailers(trailers), End);
    YieldsMore(None, EncodeAll(pieces), DataOf(pieces), None, EncodeHead(last) + EncodeTrailers(trailers), [], End);
    assert DataOf(pieces) + [] == DataOf(pieces);
  }

  lemma {:induction false} EndStays(x: Bytes)
    ensures After(End, x) == End
    decreases |x|
  {
    if x != [] {
      EndStays(x[1..]);
    }
  }

  /** Before the last byte of the trailers, the parser is still waiting for it. */
  lemma {:induction false} TrailersWait(lines: seq<Bytes>)
    requires forall k :: 0 <= k < |lines| ==> ValidTrailer(lines[k])
    ensures EncodeTrailers(lines) != []
    ensures Reads(Trailer, EncodeTrailers(lines)[..|EncodeTrailers(lines)| - 1], Trailer)
    decreases |lines|
  {
    var all := EncodeTrailers(lines);
    if lines == [] {
      assert all[..|all| - 1] == [CR];
      One(Trailer, CR);
    } else {
      hide Reads;
      var first, rest := lines[0] + [LF], EncodeTrailers(lines[1..]);
      ReadsTrailer(lines[0]);
      TrailersWait(lines[1..]);
      ReadsMore(Trailer, first, Trailer, rest[..|rest| - 1], Trailer);
      assert all[..|all| - 1] == first + rest[..|rest| - 1];
    }
  }

  lemma MessageWaits(pieces: seq<Piece>, last: Piece, trailers: seq<Bytes>)
    requires ValidMessage(pieces, last, trailers)
    ensures EncodeMessage(pieces, last, trailers) != []
    ensures var all := EncodeMessage(pieces, last, trailers); After(None, all[..|all| - 1]) == Trailer
  {
    hide After, Payload, EncodeAll, EncodeHead, EncodeTrailers, DataOf;
    var all := EncodeMessage(pieces, last, trailers);
    var body, head, end := EncodeAll(pieces), EncodeHead(last), EncodeTrailers(trailers);
    YieldsAll(pieces);
    ReadsHead(last);
    TrailersWait(trailers);
    ReadsMore(None, head, Trailer, end[..|end| - 1], Trailer);
    Concat(None, body, head + end[..|end| - 1]);
    assert all[..|all| - 1] == body + (head + end[..|end| - 1]);
  }

  /** The end is not reached early, so nothing of a following message is taken for a part of this one, nor left behind. */
  lemma MessageEndsLast(pieces: seq<Piece>, last: Piece, trailers: seq<Bytes>, n: nat)
    requires ValidMessage(pieces, last, trailers) && n <= |EncodeMessage(pieces, last, trailers)|
    ensures After(None, EncodeMessage(pieces, last, trailers)[..n]) == End <==> n == |EncodeMessage(pieces, last, trailers)|
  {
    hide After, Payload, EncodeMessage, ValidMessage;
    var all := EncodeMessage(pieces, last, trailers);
    if n == |all| {
      assert all[..n] == all;
      MessageDecodes(pieces, last, trailers);
    } else {
      MessageWaits(pieces, last, trailers);
      assert all[..|all| - 1] == all[..n] + all[n..|all| - 1];
      Concat(None, all[..n], all[n..|all| - 1]);
      EndStays(all[n..|all| - 1]);
    }
  }

  /**
   A whole message, however it is fragmented and however little of the data is used at a time: the
   data comes out, and the end is reached with the last byte.
   */
  method DecodeMessage(pieces: seq<Piece>, last: Piece, trailers: seq<Bytes>, cuts: seq<nat>, accepts: seq<nat>)
    returns (ok: bool, n: nat, output: Bytes, ended: bool)
    requires ValidMessage(pieces, last, trailers)
    requires |cuts| == |accepts| >= |EncodeMessage(pieces, last, trailers)| && 0 !in cuts && 0 !in accepts
    ensures ok && ended && n == |EncodeMessage(pieces, last, trailers)| && output == DataOf(pieces)
  {
    hide After, Payload, EncodeMessage, ValidMessage, DataOf;
    var input := EncodeMessage(pieces, last, trailers);
    ok, n, output, ended := Decode(input, cuts, accepts);
    MessageDecodes(pieces, last, trailers);
    if ok {
      MessageEndsLast(pieces, last, trailers, n);
    }
    assert input[..|input|] == input;
  }
}
