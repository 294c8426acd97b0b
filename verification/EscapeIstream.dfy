/** EscapeIstream: escape a stream piece by piece, for a sink that may accept only parts of it. */
module EscapeIstream {
  import opened Octets
  import opened Html

  /** What the sink does with the data it is offered. */
  datatype Answer = Accept(n: nat) | Close

  datatype Phase = Open | Ended | Closed

  class EscapeStream {
    /** The rest of an entity that the sink has not accepted yet. */
    var escaped: Bytes
    var hasInput: bool
    var phase: Phase

    /** What the sink is going to answer; after that, it accepts everything. */
    var answers: seq<Answer>

    ghost var consumed: Bytes
    ghost var output: Bytes

    /** Nothing is lost and nothing is sent twice. */
    ghost predicate Valid()
      reads this
    {
      output + escaped == Escape(consumed) && (phase.Ended? ==> escaped == [] && !hasInput)
    }

    constructor (answers: seq<Answer>)
      ensures Valid() && consumed == [] && output == [] && phase.Open? && hasInput
      ensures this.answers == answers
    {
      escaped, hasInput, phase := [], true, Open;
      this.answers := answers;
      consumed, output := [], [];
    }

    /** The sink accepts some of the data, or closes the stream. */
    method InvokeData(d: Bytes) returns (n: nat)
      requires phase.Open?
      modifies this`answers, this`phase, this`output
      ensures n <= |d| && output == old(output) + d[..n]
      ensures phase.Open? || (phase.Closed? && n == 0)
      ensures old(answers) == [] ==> n == |d| && phase.Open? && answers == []
    {
      var answer := if answers == [] then Accept(|d|) else answers[0];
      if answers != [] {
        answers := answers[1..];
      }
      match answer {
        case Accept(k) =>
          n := Min(k, |d|);
        case Close =>
          phase := Closed;
          n := 0;
      }
      output := output + d[..n];
    }

    /** Returns true if the whole entity has been sent and the stream goes on. */
    method SendEscaped() returns (ok: bool)
      requires Valid() && phase.Open? && escaped != []
      modifies this`escaped, this`phase, this`answers, this`output
      ensures Valid()
      ensures ok <==> escaped == [] && phase.Open?
      ensures ok ==> hasInput
      ensures old(answers) == [] ==> escaped == [] && answers == [] && (if hasInput then ok else phase.Ended?)
    {
      hide Escape;
      var n := InvokeData(escaped);
      assert escaped == escaped[..n] + escaped[n..];
      if n == 0 {
        return false;
      }
      escaped := escaped[n..];
      if escaped != [] {
        return false;
      }
      if !hasInput {
        phase := Ended;
        return false;
      }
      ok := true;
    }

    /**
     The input offers data; the result is how much of it has been consumed, 0 if the stream is closed.
     A sink that accepts everything gets all of it at once.
     */
    method OnData(src: Bytes) returns (total: nat)
      requires Valid() && phase.Open? && hasInput && src != []
      modifies this`escaped, this`phase, this`answers, this`output, this`consumed
      ensures Valid()
      ensures phase.Open? ==> total <= |src| && consumed == old(consumed) + src[..total]
      ensures !phase.Ended?
      ensures old(answers) == [] ==> total == |src| && phase.Open? && escaped == [] && answers == []
    {
      hide Escape;
      if escaped != [] {
        var ok := SendEscaped();
        if !ok {
          assert src[..0] == [];
          return 0;
        }
      }
      total := 0;
      assert src[..0] == [];
      ghost var start := consumed;
      hide Valid;
      while total < |src|
        invariant Valid() && phase.Open? && hasInput && escaped == [] && total <= |src|
        invariant consumed == start + src[..total]
        invariant old(answers) == [] ==> answers == []
        decreases |src| - total
      {
        var n, ok := Turn(src[total..]);
        Advance(start, src, total, n);
        total := total + n;
        if !ok {
          return if phase.Open? then total else 0;
        }
      }
    }

    /** Everything up to the next special character, and that character; true if all of it was sent. */
    method Turn(d: Bytes) returns (n: nat, ok: bool)
      requires Valid() && phase.Open? && hasInput && escaped == [] && d != []
      modifies this`escaped, this`phase, this`answers, this`output, this`consumed
      ensures Valid() && !phase.Ended? && n <= |d|
      ensures phase.Open? ==> consumed == old(consumed) + d[..n]
      ensures ok ==> phase.Open? && escaped == [] && n > 0
      ensures old(answers) == [] ==> ok && answers == []
    {
      hide Valid;
      var k := EscapeFind(d);
      n := 0;
      assert d[..0] == [];
      if k > 0 {
        n := Forward(d[..k]);
        if !phase.Open? || n < k {
          assert phase.Open? ==> d[..k][..n] == d[..n];
          return n, false;
        }
        assert d[..k][..k] == d[..k];
      }
      ok := true;
      if k < |d| {
        ok := Insert(d[k]);
        assert d[..k + 1] == d[..k] + [d[k]];
        n := k + 1;
      }
    }

    /** Data without special characters is forwarded as it is. */
    method Forward(d: Bytes) returns (n: nat)
      requires Valid() && phase.Open? && escaped == [] && Plain(d)
      modifies this`phase, this`answers, this`output, this`consumed
      ensures Valid() && n <= |d|
      ensures phase.Open? ==> consumed == old(consumed) + d[..n]
      ensures !phase.Ended?
      ensures old(answers) == [] ==> n == |d| && phase.Open? && answers == []
    {
      n := InvokeData(d);
      EscapeConcat(consumed, d[..n]);
      EscapePlain(d[..n]);
      consumed := consumed + d[..n];
    }

    /** A special character is consumed, and its entity is sent as far as possible. */
    method Insert(b: Byte) returns (ok: bool)
      requires Valid() && phase.Open? && hasInput && escaped == [] && IsSpecial(b)
      modifies this`escaped, this`phase, this`answers, this`output, this`consumed
      ensures Valid()
      ensures ok <==> escaped == [] && phase.Open?
      ensures consumed == old(consumed) + [b] && !phase.Ended?
      ensures old(answers) == [] ==> ok && answers == []
    {
      hide Escape;
      EscapeConcat(consumed, [b]);
      EscapeOne(b);
      assert output + [] == output;
      escaped, consumed := EscapeChar(b), consumed + [b];
      ok := SendEscaped();
    }

    method OnEof()
      requires Valid() && phase.Open? && hasInput
      modifies this`hasInput, this`phase
      ensures Valid() && !hasInput && (phase.Ended? <==> escaped == [])
    {
      hasInput := false;
      if escaped == [] {
        phase := Ended;
      }
    }

    /** The sink asks for more; true if it is now up to the input. */
    method Read() returns (ok: bool)
      requires Valid() && phase.Open? && (hasInput || escaped != [])
      modifies this`escaped, this`phase, this`answers, this`output
      ensures Valid()
      ensures ok <==> phase.Open? && escaped == []
      ensures ok ==> hasInput
      ensures old(answers) == [] ==> if hasInput then ok else phase.Ended?
    {
      ok := true;
      if escaped != [] {
        ok := SendEscaped();
      }
    }
  }

  lemma Advance(start: Bytes, src: Bytes, total: nat, n: nat)
    requires total + n <= |src|
    ensures (start + src[..total]) + src[total..][..n] == start + src[..total + n]
  {
    assert src[..total + n] == src[..total] + src[total..][..n];
  }

  /** At the end, the output is the escape of the whole input, and unescaping it gives the input back. */
  lemma EndIsComplete(s: EscapeStream)
    requires s.Valid() && s.phase.Ended?
    ensures s.output == Escape(s.consumed)
    ensures Unescape(s.output) == s.consumed
  {
    RoundTrip(s.consumed);
    assert s.output + [] == s.output;
  }

  /** At any time, what the sink has got is a prefix of the escaped input, and at most one entity is pending. */
  lemma AlwaysAPrefix(s: EscapeStream, more: Bytes)
    requires s.Valid()
    ensures s.output <= Escape(s.consumed + more)
  {
    EscapeConcat(s.consumed, more);
    assert s.output <= Escape(s.consumed);
  }
}
