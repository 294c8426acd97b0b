/**
 The reference meaning of a FastCGI record stream (section 3.3 of the FastCGI
 Specification 1.0): an automaton that reads one byte at a time and emits the
 canonical events of every record.  It has no handler, no buffer and no
 back-pressure, so its events depend on nothing but the bytes.
 */
module FcgiWire {
  import opened Octets

  const HEADER_SIZE: nat := 8

  const END_REQUEST: nat := 3
  const STDIN: nat := 5
  const STDOUT: nat := 6
  const STDERR: nat := 7

  function Be16(hi: Byte, lo: Byte): nat {
    hi * 256 + lo
  }

  /** What one record looks like to somebody who sees every byte of it. */
  datatype Event =
    | Open(rtype: nat, id: nat)
    | Data(b: Byte)
    | Close

  /** Between two records `content == padding == 0`, and `hdr` collects the next header. */
  datatype Wire = Wire(hdr: Bytes, content: nat, padding: nat) {
    ghost predicate Valid() {
      |hdr| < HEADER_SIZE && (content + padding > 0 ==> hdr == [])
    }

    /** No header byte has been read yet. */
    predicate Aligned() {
      hdr == []
    }
  }

  function Inside(content: nat, padding: nat): Wire {
    Wire([], content, padding)
  }

  const START: Wire := Inside(0, 0)

  function CloseIf(done: bool): seq<Event> {
    if done then [Close] else []
  }

  function NextWire(w: Wire, b: Byte): (r: Wire)
    ensures w.Valid() ==> r.Valid()
  {
    if w.content > 0 then
      Inside(w.content - 1, w.padding)
    else if w.padding > 0 then
      Inside(0, w.padding - 1)
    else if |w.hdr| == HEADER_SIZE - 1 then
      Inside(Be16(w.hdr[4], w.hdr[5]), w.hdr[6])
    else
      w.(hdr := w.hdr + [b])
  }

  function Emits(w: Wire, b: Byte): seq<Event> {
    if w.content > 0 then
      [Data(b)] + CloseIf(w.content + w.padding == 1)
    else if w.padding > 0 then
      CloseIf(w.padding == 1)
    else if |w.hdr| == HEADER_SIZE - 1 then
      [Open(w.hdr[1], Be16(w.hdr[2], w.hdr[3]))] + CloseIf(Be16(w.hdr[4], w.hdr[5]) + w.hdr[6] == 0)
    else
      []
  }

  function WireAfter(w: Wire, bytes: Bytes): (r: Wire)
    ensures w.Valid() ==> r.Valid()
    decreases |bytes|
  {
    if bytes == [] then w else WireAfter(NextWire(w, bytes[0]), bytes[1..])
  }

  function EventsOf(w: Wire, bytes: Bytes): seq<Event>
    decreases |bytes|
  {
    if bytes == [] then [] else Emits(w, bytes[0]) + EventsOf(NextWire(w, bytes[0]), bytes[1..])
  }

  /** The automaton does not notice where the stream was cut. */
  lemma {:induction false} WireConcat(w: Wire, a: Bytes, b: Bytes)
    ensures WireAfter(w, a + b) == WireAfter(WireAfter(w, a), b)
    ensures EventsOf(w, a + b) == EventsOf(w, a) + EventsOf(WireAfter(w, a), b)
    decreases |a|
  {
    if a == [] {
      assert a + b == b;
    } else {
      assert (a + b)[1..] == a[1..] + b;
      WireConcat(NextWire(w, a[0]), a[1..], b);
    }
  }

  function DataEvents(d: Bytes): (r: seq<Event>)
    ensures |r| == |d|
  {
    if d == [] then [] else [Data(d[0])] + DataEvents(d[1..])
  }

  /** A run of content bytes; the record closes with its last byte. */
  lemma {:induction false} WireContent(content: nat, padding: nat, d: Bytes)
    requires |d| <= content
    ensures WireAfter(Inside(content, padding), d) == Inside(content - |d|, padding)
    ensures EventsOf(Inside(content, padding), d)
         == DataEvents(d) + CloseIf(d != [] && |d| == content && padding == 0)
  {
    if d != [] {
      WireContent(content - 1, padding, d[1..]);
    }
  }

  lemma {:induction false} WirePadding(padding: nat, d: Bytes)
    requires |d| <= padding
    ensures WireAfter(Inside(0, padding), d) == Inside(0, padding - |d|)
    ensures EventsOf(Inside(0, padding), d) == CloseIf(d != [] && |d| == padding)
  {
    if d != [] {
      WirePadding(padding - 1, d[1..]);
    }
  }

  lemma ContentOnly(content: nat, padding: nat, d: Bytes)
    requires |d| == content && padding > 0
    ensures WireAfter(Inside(content, padding), d) == Inside(0, padding)
    ensures EventsOf(Inside(content, padding), d) == DataEvents(d)
  {
    hide WireAfter, EventsOf;
    WireContent(content, padding, d);
    assert DataEvents(d) + [] == DataEvents(d);
  }

  /** A run of bytes that may start in the content and reach into the padding. */
  lemma WireRest(content: nat, padding: nat, d: Bytes, n: nat)
    requires |d| <= content + padding
    requires n == Min(content, |d|)
    ensures WireAfter(Inside(content, padding), d) == Inside(content - n, padding - (|d| - n))
    ensures EventsOf(Inside(content, padding), d)
         == DataEvents(d[..n]) + CloseIf(d != [] && |d| == content + padding)
  {
    hide WireAfter, EventsOf;
    if |d| <= content {
      assert d[..n] == d;
      WireContent(content, padding, d);
    } else {
      var c, p := d[..n], d[n..];
      assert d == c + p;
      var w, w1 := Inside(content, padding), Inside(0, padding);
      ContentOnly(content, padding, c);
      hide Inside, DataEvents, CloseIf;
      WirePadding(padding, p);
      WireConcat(w, c, p);
    }
  }

  /** Inside a header. */
  ghost predicate Between(w: Wire) {
    w.content == 0 && w.padding == 0
  }

  lemma {:induction false} WireCollect(w: Wire, d: Bytes)
    requires Between(w) && |w.hdr| + |d| < HEADER_SIZE
    ensures WireAfter(w, d) == w.(hdr := w.hdr + d)
    ensures EventsOf(w, d) == []
    decreases |d|
  {
    if d == [] {
      assert w.hdr + d == w.hdr;
    } else {
      assert w.hdr + d == (w.hdr + [d[0]]) + d[1..];
      WireCollect(w.(hdr := w.hdr + [d[0]]), d[1..]);
    }
  }

  lemma WireOne(w: Wire, b: Byte)
    ensures WireAfter(w, [b]) == NextWire(w, b)
    ensures EventsOf(w, [b]) == Emits(w, b)
  {
    assert [b][1..] == [];
  }

  /** A whole header opens a record; an empty record closes at once. */
  lemma WireHeader(w: Wire, h: Bytes)
    requires Between(w) && w.Aligned() && |h| == HEADER_SIZE
    ensures WireAfter(w, h) == Inside(Be16(h[4], h[5]), h[6])
    ensures EventsOf(w, h)
         == [Open(h[1], Be16(h[2], h[3]))] + CloseIf(Be16(h[4], h[5]) + h[6] == 0)
  {
    hide WireAfter, EventsOf;
    var front, last := h[..7], h[7];
    assert h == front + [last];
    assert w.hdr + front == front;
    var w1 := w.(hdr := front);
    WireCollect(w, front);
    WireOne(w1, last);
    WireConcat(w, front, [last]);
    assert [] + Emits(w1, last) == Emits(w1, last);
  }
}
