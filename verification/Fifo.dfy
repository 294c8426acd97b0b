/**
 The bounded buffer of the CGI client.  The pending bytes need not start at the
 beginning of the memory: `head` bytes before them have been consumed, and only a
 buffer that has reached the end of its memory is shifted back.
 */
module Fifo {
  import opened Octets

  datatype Buffer = Buffer(head: nat, data: Bytes) {
    predicate Valid(cap: nat) {
      head + |data| <= cap
    }

    predicate Full(cap: nat) {
      |data| >= cap
    }

    /** Nothing is left behind the pending bytes. */
    predicate AtEnd(cap: nat) {
      head + |data| >= cap
    }

    /** Prepare for writing: an empty buffer starts over, and one that has reached its end is shifted. */
    function Rewound(cap: nat): (r: Buffer)
      ensures r.data == data
      ensures Valid(cap) ==> r.Valid(cap)
    {
      if data == [] || AtEnd(cap) then Buffer(0, data) else this
    }

    /** How many bytes can be written at once. */
    function Room(cap: nat): (n: nat)
      requires Valid(cap)
      ensures |data| + n <= cap
      ensures n == 0 <==> Full(cap)
    {
      cap - Rewound(cap).head - |data|
    }

    function Append(cap: nat, d: Bytes): (r: Buffer)
      requires Valid(cap) && |d| <= Room(cap)
      ensures r.Valid(cap)
    {
      Rewound(cap).(data := data + d)
    }

    function Consume(n: nat): Buffer
      requires n <= |data|
    {
      Buffer(head + n, data[n..])
    }
  }

  const EMPTY := Buffer(0, [])
}
