/**
 FilteredSocketLease: a socket's pending input stays readable after the socket has
 been handed back.  Four bounded buffers then behave as one queue.
 */
module Lease {
  import opened Octets

  const BUFFERS: nat := 4

  /** All buffers, read as one queue. */
  function Queue(input: seq<Bytes>): Bytes
    decreases |input|
  {
    if input == [] then [] else input[0] + Queue(input[1..])
  }

  lemma {:induction false} QueueConcat(a: seq<Bytes>, b: seq<Bytes>)
    ensures Queue(a + b) == Queue(a) + Queue(b)
    decreases |a|
  {
    if a == [] {
      assert a + b == b;
    } else {
      assert (a + b)[1..] == a[1..] + b;
      QueueConcat(a[1..], b);
    }
  }

  predicate AllEmpty(input: seq<Bytes>) {
    forall k :: 0 <= k < |input| ==> input[k] == []
  }

  lemma {:induction false} QueueOfEmpty(input: seq<Bytes>)
    ensures AllEmpty(input) ==> Queue(input) == []
    decreases |input|
  {
    if input != [] {
      QueueOfEmpty(input[1..]);
    }
  }

  predicate Bounded(cap: nat, input: seq<Bytes>) {
    forall k :: 0 <= k < |input| ==> |input[k]| <= cap
  }

  /** The front buffer is full, or it holds everything. */
  predicate Packed(cap: nat, input: seq<Bytes>) {
    |input| > 0 && (|input[0]| >= cap || AllEmpty(input[1..]))
  }

  lemma PackedFront(cap: nat, input: seq<Bytes>)
    requires Packed(cap, input) && cap > 0
    ensures input[0] <= Queue(input)
    ensures input[0] == [] <==> Queue(input) == []
  {
    QueueOfEmpty(input[1..]);
  }

  lemma FrontSize(cap: nat, input: seq<Bytes>)
    requires Packed(cap, input) && Bounded(cap, input)
    ensures |input[0]| == Min(cap, |Queue(input)|)
  {
    QueueOfEmpty(input[1..]);
  }

  // One step of MoveInput()

  /** Move from one buffer to the front as much as fits. */
  function MoveOne(cap: nat, input: seq<Bytes>, i: nat): (r: seq<Bytes>)
    requires 0 < i < |input| && Bounded(cap, input)
    ensures |r| == |input| && Bounded(cap, r)
    ensures r[1..i] == input[1..i] && r[i + 1..] == input[i + 1..]
    ensures r[0] + r[i] == input[0] + input[i]
    ensures |r[0]| >= cap || r[i] == []
  {
    var n := Min(cap - |input[0]|, |input[i]|);
    assert input[i] == input[i][..n] + input[i][n..];
    input[0 := input[0] + input[i][..n]][i := input[i][n..]]
  }

  lemma QueueSplit(input: seq<Bytes>, i: nat)
    requires 0 < i < |input| && AllEmpty(input[1..i])
    ensures Queue(input) == input[0] + (input[i] + Queue(input[i + 1..]))
  {
    assert input[1..] == input[1..i] + input[i..];
    QueueConcat(input[1..i], input[i..]);
    QueueOfEmpty(input[1..i]);
    assert input[i..][1..] == input[i + 1..];
    assert [] + Queue(input[i..]) == Queue(input[i..]);
  }

  lemma Regroup(a: Bytes, b: Bytes, c: Bytes, d: Bytes, rest: Bytes)
    requires a + b == c + d
    ensures a + (b + rest) == c + (d + rest)
  {
    assert a + (b + rest) == (a + b) + rest;
    assert c + (d + rest) == (c + d) + rest;
  }

  lemma MoveOneKeeps(cap: nat, input: seq<Bytes>, i: nat)
    requires 0 < i < |input| && Bounded(cap, input) && AllEmpty(input[1..i])
    ensures Queue(MoveOne(cap, input, i)) == Queue(input)
    ensures |MoveOne(cap, input, i)[0]| >= cap || AllEmpty(MoveOne(cap, input, i)[1..i + 1])
  {
    hide Queue, MoveOne, Bounded;
    var r := MoveOne(cap, input, i);
    assert r[1..i + 1] == input[1..i] + [r[i]];
    assert Queue(r) == Queue(input) by {
      var rest := Queue(input[i + 1..]);
      assert Queue(input) == input[0] + (input[i] + rest) by { QueueSplit(input, i); }
      assert Queue(r) == r[0] + (r[i] + rest) by { QueueSplit(r, i); }
      hide AllEmpty;
      Regroup(input[0], input[i], r[0], r[i], rest);
    }
  }

  lemma QueueAppend(input: seq<Bytes>, i: nat, b: Bytes, d: Bytes)
    requires i < |input| && AllEmpty(input[i + 1..]) && b == input[i] + d
    ensures Queue(input[i := b]) == Queue(input) + d
  {
    hide AllEmpty, Queue;
    var front, rest := input[..i], input[i + 1..];
    assert input == front + ([input[i]] + rest) && input[i := b] == front + ([b] + rest);
    QueueConcat(front, [input[i]] + rest);
    QueueConcat(front, [b] + rest);
    QueueHead(input[i], rest);
    QueueHead(b, rest);
    QueueOfEmpty(rest);
    assert Queue(front) + (input[i] + d) == Queue(front) + input[i] + d;
  }

  lemma QueueHead(b: Bytes, rest: seq<Bytes>)
    requires AllEmpty(rest)
    ensures Queue([b] + rest) == b
  {
    assert ([b] + rest)[1..] == rest;
    QueueOfEmpty(rest);
  }

  /** The first `i` buffers have been filled, and nothing has been put behind buffer `i`. */
  ghost predicate Filling(cap: nat, input: seq<Bytes>, i: nat) {
    && |input| == BUFFERS && i < BUFFERS && Bounded(cap, input)
    && (forall k :: 0 <= k < i ==> |input[k]| == cap)
    && AllEmpty(input[i + 1..])
    && |Queue(input)| == i * cap + |input[i]|
  }

  lemma FillingPut(cap: nat, input: seq<Bytes>, i: nat, d: Bytes)
    requires Filling(cap, input, i) && |input[i]| + |d| <= cap
    ensures Filling(cap, input[i := input[i] + d], i)
    ensures Queue(input[i := input[i] + d]) == Queue(input) + d
  {
    assert input[i := input[i] + d][i + 1..] == input[i + 1..];
    QueueAppend(input, i, input[i] + d, d);
  }

  lemma FillingNext(cap: nat, input: seq<Bytes>, i: nat)
    requires Filling(cap, input, i) && |input[i]| >= cap && i + 1 < BUFFERS
    ensures Filling(cap, input, i + 1)
  {
    assert (i + 1) * cap == i * cap + cap;
    assert input[i + 1..][0] == [] && input[i + 2..] == input[i + 1..][1..];
  }

  lemma FillingDone(cap: nat, input: seq<Bytes>, i: nat)
    requires Filling(cap, input, i)
    ensures Packed(cap, input)
  {
  }

  /** How much the worker thread decrypts, depending on the turn and on what is in the two buffers. */
  type Worker = (nat, nat, nat) -> nat

  /** The worker thread does nothing until the main thread has found its buffer empty. */
  ghost predicate OnlyAtTheEnd(before: Worker, after: Worker) {
    && (forall k, u, d :: before(k, u, d) == 0)
    && (forall k, u, d :: u > 0 ==> after(k, u, d) == 0)
  }

  /** The socket, as far as the lease sees it: what the filter has decrypted, and what it has not. */
  class FilteredSocket {
    const cap: nat
    var encrypted: Bytes
    var decrypted: Bytes
    var unprotected: Bytes

    ghost predicate Valid()
      reads this
    {
      cap > 0 && |encrypted| <= cap && |decrypted| <= cap && |unprotected| <= cap
    }

    ghost function Pending(): Bytes
      reads this
    {
      unprotected + decrypted + encrypted
    }

    constructor (cap: nat, unprotected: Bytes, decrypted: Bytes, encrypted: Bytes)
      requires cap > 0 && |encrypted| <= cap && |decrypted| <= cap && |unprotected| <= cap
      ensures Valid() && this.cap == cap
      ensures this.unprotected == unprotected && this.decrypted == decrypted && this.encrypted == encrypted
    {
      this.cap := cap;
      this.unprotected, this.decrypted, this.encrypted := unprotected, decrypted, encrypted;
    }

    /** The worker thread decrypts up to `k` bytes. */
    method Decrypt(k: nat) returns (n: nat)
      requires Valid()
      modifies this`encrypted, this`decrypted
      ensures Valid() && Pending() == old(Pending())
      ensures n == Min(Min(k, |old(encrypted)|), cap - |old(decrypted)|)
      ensures |decrypted| == |old(decrypted)| + n && |encrypted| == |old(encrypted)| - n
    {
      n := Min(Min(k, |encrypted|), cap - |decrypted|);
      assert encrypted == encrypted[..n] + encrypted[n..];
      decrypted, encrypted := decrypted + encrypted[..n], encrypted[n..];
    }

    /** Make decrypted bytes accessible. */
    method AfterConsumed()
      requires Valid()
      modifies this`decrypted, this`unprotected
      ensures Valid() && Pending() == old(Pending())
      ensures unprotected == [] ==> decrypted == []
      ensures old(unprotected) <= unprotected
    {
      var m := Min(|decrypted|, cap - |unprotected|);
      assert decrypted == decrypted[..m] + decrypted[m..];
      unprotected, decrypted := unprotected + decrypted[..m], decrypted[m..];
    }

    /** AfterConsumed(), and what the worker thread does before and after it. */
    method Refill(before: Worker, after: Worker, k: nat) returns (moved: nat)
      requires Valid()
      modifies this`encrypted, this`decrypted, this`unprotected
      ensures Valid() && Pending() == old(Pending())
      ensures moved + |encrypted| <= |old(encrypted)|
      ensures OnlyAtTheEnd(before, after) ==>
                moved + |encrypted| == |old(encrypted)| && (unprotected != [] ==> moved == 0)
      ensures unprotected == [] ==>
                moved == |decrypted| == Min(Min(after(k, 0, 0), moved + |encrypted|), cap)
    {
      var _ := Decrypt(before(k, |unprotected|, |decrypted|));
      AfterConsumed();
      moved := Decrypt(after(k, |unprotected|, |decrypted|));
    }

    method DisposeConsumed(n: nat)
      requires Valid() && n <= |unprotected|
      modifies this`unprotected
      ensures Valid() && unprotected == old(unprotected)[n..]
      ensures Pending() == old(Pending())[n..]
    {
      unprotected := unprotected[n..];
    }
  }

  /** What the handler does with the buffer it is offered. */
  datatype Answer = Answer(consume: nat, result: Result)

  datatype Result = OK | MORE | AGAIN | DESTROYED

  /** The handler consumes something every time and asks to be called again. */
  predicate AlwaysAgain(answers: seq<Answer>) {
    forall k :: 0 <= k < |answers| ==> answers[k].result.AGAIN? && answers[k].consume > 0
  }

  /** What happens after one answer of a handler that was offered the front of `size` bytes. */
  function Reaction(cap: nat, size: nat, answer: Answer): Verdict {
    var left := size - Min(answer.consume, Min(cap, size));
    match answer.result
    case OK => if left == 0 then EndTold else if answer.consume == 0 || left >= cap then Idle else Unanswered
    case MORE => if left == 0 then Premature else Unanswered
    case AGAIN => Unanswered
    case DESTROYED => Gone
  }

  /** The handler consumes nothing and wants more every time. */
  predicate AlwaysHungry(answers: seq<Answer>) {
    forall k :: 0 <= k < |answers| ==> answers[k].result.MORE? && answers[k].consume == 0
  }

  lemma HungryAt(answers: seq<Answer>, k: nat)
    requires k < |answers|
    ensures AlwaysHungry(answers) ==> answers[k].result.MORE? && answers[k].consume == 0
  {
  }

  lemma AgainAt(answers: seq<Answer>, k: nat)
    requires k < |answers|
    ensures AlwaysAgain(answers) ==> answers[k].result.AGAIN? && answers[k].consume > 0
  {
  }

  datatype Verdict =
    | EndTold      // nothing is left, and the handler was told the end
    | Premature    // nothing is left, but the handler wanted more
    | Emptied      // nothing is left
    | Idle         // the handler does not seem to want any more
    | Gone         // the handler has destroyed the lease
    | Unanswered

  class FilteredSocketLease {
    const cap: nat
    var socket: FilteredSocket?
    var input: seq<Bytes>

    ghost predicate Valid()
      reads this, socket
    {
      && cap > 0 && |input| == BUFFERS && Bounded(cap, input)
      && if socket != null then socket.Valid() && socket.cap == cap && AllFresh()
         else Packed(cap, input)
    }

    ghost predicate AllFresh()
      reads this`input
    {
      forall k :: 0 <= k < |input| ==> input[k] == []
    }

    /** What the handler has yet to read. */
    ghost function Contents(): Bytes
      reads this, socket
    {
      if socket != null then socket.unprotected + socket.decrypted else Queue(input)
    }

    constructor (socket: FilteredSocket)
      requires socket.Valid()
      ensures Valid() && this.socket == socket
      ensures Contents() == socket.unprotected + socket.decrypted
    {
      this.cap := socket.cap;
      this.socket := socket;
      input := [[], [], [], []];
    }

    method Take(i: nat)
      requires socket != null && socket.Valid() && socket.unprotected != []
      requires Filling(cap, input, i) && |input[i]| < cap
      modifies this`input, socket`unprotected
      ensures socket.Valid() && Filling(cap, input, i)
      ensures Queue(input) + socket.Pending() == old(Queue(input) + socket.Pending())
      ensures |socket.Pending()| < old(|socket.Pending()|)
    {
      var r := socket.unprotected;
      var n := Min(|r|, cap - |input[i]|);
      FillingPut(cap, input, i, r[..n]);
      ghost var queue, pending := Queue(input), socket.Pending();
      hide Filling, Queue;
      input := input[i := input[i] + r[..n]];
      socket.DisposeConsumed(n);
      assert pending[..n] == r[..n];
      assert queue + pending == (queue + pending[..n]) + pending[n..];
    }

    /**
     The worker thread decrypts meanwhile, before and after each AfterConsumed(), as much as `before` and `after`
     say; `moved` is what it has decrypted after the last one.  Everything else ends up in the queue.  The
     assertion that nothing decrypted is left in the socket holds exactly if that is nothing.
     */
    method MoveSocketInput(before: Worker, after: Worker) returns (moved: nat, ghost turns: nat)
      requires Valid() && socket != null
      modifies this`input, socket
      ensures socket.Valid() && socket.unprotected == []
      ensures |input| == BUFFERS && Bounded(cap, input) && Packed(cap, input)
      ensures Queue(input) + (socket.decrypted + socket.encrypted) == old(socket.Pending())
      ensures socket.decrypted == [] <==> moved == 0
      ensures turns > 0 && moved == |socket.decrypted| == Min(Min(after(turns - 1, 0, 0), moved + |socket.encrypted|), cap)
      ensures moved + |socket.encrypted| <= |old(socket.encrypted)|
      ensures OnlyAtTheEnd(before, after) ==> moved + |socket.encrypted| == |old(socket.encrypted)|
    {
      hide Queue, Bounded, Packed, OnlyAtTheEnd;
      ghost var all := socket.Pending();
      var i, k := 0, 0;
      FillingStart(cap, input);
      assert [] + all == all;
      while true
        invariant socket.Valid() && Filling(cap, input, i)
        invariant Queue(input) + socket.Pending() == all
        invariant |socket.encrypted| <= |old(socket.encrypted)|
        invariant OnlyAtTheEnd(before, after) ==> |socket.encrypted| == |old(socket.encrypted)|
        decreases |socket.Pending()|, BUFFERS - i
      {
        moved := socket.Refill(before, after, k);
        k := k + 1;
        if socket.unprotected == [] {
          break;
        }
        if |input[i]| >= cap {
          Fits(i, cap, |Queue(input)|, |all|);
          FillingNext(cap, input, i);
          i := i + 1;
          continue;
        }
        Take(i);
      }
      turns := k;
      FillingDone(cap, input, i);
      assert socket.Pending() == socket.decrypted + socket.encrypted;
    }

    /** Hand back the socket; with `preserve`, what could be read before can still be read. */
    method Release(preserve: bool, before: Worker, after: Worker)
      requires Valid() && socket != null
      modifies this, socket
      ensures Valid() && socket == null
      ensures !preserve ==> Contents() == []
      ensures preserve ==> old(Contents()) <= Contents() && Contents() <= old(Contents() + socket.encrypted)
    {
      ghost var contents, encrypted := Contents(), socket.encrypted;
      if preserve {
        var _, _ := MoveSocketInput(before, after);
        Kept(contents, encrypted, Queue(input), socket.decrypted + socket.encrypted);
      } else {
        FillingStart(cap, input);
        FillingDone(cap, input, 0);
      }
      socket := null;
    }

    method GetAvailable() returns (n: nat)
      requires Valid()
      ensures n == |Contents()|
    {
      if socket != null {
        return |socket.unprotected| + |socket.decrypted|;
      }
      n := 0;
      for i := 0 to |input|
        invariant n == |Queue(input[..i])|
      {
        assert input[..i + 1] == input[..i] + [input[i]];
        QueueConcat(input[..i], [input[i]]);
        n := n + |input[i]|;
      }
      assert input[..|input|] == input;
    }

    /** After the release, all that is left can be reached through the front buffer. */
    method ReadBuffer() returns (r: Bytes)
      requires Valid()
      ensures r <= Contents() && r == if socket == null then input[0] else socket.unprotected
      ensures socket == null ==> |r| == Min(cap, |Contents()|)
      ensures socket == null ==> (r == [] <==> Contents() == [])
    {
      if socket != null {
        return socket.unprotected;
      }
      PackedFront(cap, input);
      FrontSize(cap, input);
      r := input[0];
    }

    /** Consume the beginning of what ReadBuffer() has returned. */
    method DisposeConsumed(n: nat)
      requires Valid() && n <= if socket == null then |input[0]| else |socket.unprotected|
      modifies this`input, socket
      ensures Valid() && socket == old(socket)
      ensures Contents() == old(Contents())[n..]
    {
      if socket != null {
        socket.DisposeConsumed(n);
        return;
      }
      ghost var before := input;
      input := input[0 := input[0][n..]];
      assert input[1..] == before[1..];
      assert (before[0] + Queue(before[1..]))[n..] == before[0][n..] + Queue(before[1..]);
      MoveInput();
    }

    method MoveInput()
      requires socket == null && cap > 0 && |input| == BUFFERS && Bounded(cap, input)
      modifies this`input
      ensures Valid() && Queue(input) == old(Queue(input))
    {
      hide Queue, Bounded;
      var i := 1;
      while |input[0]| < cap && i < |input|
        invariant 1 <= i <= |input| == BUFFERS && Bounded(cap, input)
        invariant |input[0]| >= cap || AllEmpty(input[1..i])
        invariant Queue(input) == old(Queue(input))
      {
        MoveOneKeeps(cap, input, i);
        input := MoveOne(cap, input, i);
        i := i + 1;
      }
      assert input[1..|input|] == input[1..];
    }

    /** One call of the handler, which consumes up to `accept` bytes of the front buffer; that is refilled as far as possible. */
    method ReadSome(accept: nat) returns (d: Bytes)
      requires Valid() && socket == null
      modifies this`input
      ensures Valid() && d + Contents() == old(Contents()) && |d| == Min(accept, |old(input[0])|)
      ensures |input[0]| == Min(cap, |Contents()|)
      ensures d == [] <==> accept == 0 || old(Contents()) == []
    {
      hide Queue, Packed, Bounded;
      ghost var rest := Contents();
      var r := ReadBuffer();
      d := r[..Min(accept, |r|)];
      DisposeConsumed(|d|);
      assert rest == rest[..|d|] + rest[|d|..] && rest[..|d|] == d;
      FrontSize(cap, input);
    }

    /**
     One turn of ReadReleased().  A handler that is content is asked again only if the front buffer has become
     shorter; although it has consumed something, that is not so if the other buffers could fill it up again.
     */
    method Ask(answer: Answer) returns (d: Bytes, verdict: Verdict)
      requires Valid() && socket == null && Contents() != []
      modifies this`input
      ensures Valid() && d + Contents() == old(Contents())
      ensures |d| == Min(answer.consume, Min(cap, |old(Contents())|))
      ensures verdict == Reaction(cap, |old(Contents())|, answer)
    {
      hide Valid, Contents, Queue;
      var front := ReadBuffer();
      d := ReadSome(answer.consume);
      var rest := ReadBuffer();
      verdict := Unanswered;
      match answer.result {
        case OK =>
          if rest == [] {
            verdict := EndTold;
          } else if |rest| >= |front| {
            verdict := Idle;
          }
        case MORE =>
          if rest == [] {
            verdict := Premature;
          }
        case AGAIN =>
        case DESTROYED =>
          verdict := Gone;
      }
    }

    /** After the release: offer the rest to the handler until there is a reason to stop; `output` is what it consumes. */
    method ReadReleased(answers: seq<Answer>) returns (output: Bytes, verdict: Verdict, ghost used: nat)
      requires Valid() && socket == null
      modifies this`input
      ensures Valid() && output + Contents() == old(Contents()) && used <= |answers|
      ensures match verdict
        case EndTold => Contents() == [] && used > 0 && answers[used - 1].result.OK?
        case Premature => Contents() == [] && used > 0 && answers[used - 1].result.MORE?
        case Emptied => Contents() == []
        case Idle => Contents() != [] && used > 0 && answers[used - 1].result.OK?
                     && (answers[used - 1].consume == 0 || |Contents()| >= cap)
        case Gone => used > 0 && answers[used - 1].result.DESTROYED?
        case Unanswered => Contents() != [] && used == |answers|
      ensures AlwaysAgain(answers) && |answers| >= |old(Contents())| ==> verdict.Emptied?
      ensures AlwaysHungry(answers) && old(Contents()) != [] ==> used == |answers| && output == []
    {
      hide Valid, Contents, Queue, AlwaysAgain, AlwaysHungry;
      ghost var all := Contents();
      output, verdict, used := [], Unanswered, 0;
      assert [] + all == all;
      var front := ReadBuffer();
      var k := 0;
      while front != [] && k < |answers|
        invariant Valid() && socket == null && k == used <= |answers|
        invariant output + Contents() == all
        invariant front == [] <==> Contents() == []
        invariant AlwaysAgain(answers) ==> |output| >= k
        invariant AlwaysHungry(answers) ==> output == []
        decreases |answers| - k
      {
        AgainAt(answers, k);
        HungryAt(answers, k);
        var d, next := Ask(answers[k]);
        k, used := k + 1, used + 1;
        Joined(output, d, Contents());
        output := output + d;
        if next != Unanswered {
          return output, next, used;
        }
        front := ReadBuffer();
      }
      if front == [] {
        verdict := Emptied;
      }
    }
  }

  lemma Joined(a: Bytes, b: Bytes, c: Bytes)
    ensures a + (b + c) == (a + b) + c
  {
  }

  lemma Kept(contents: Bytes, encrypted: Bytes, queue: Bytes, rest: Bytes)
    requires queue + rest == contents + encrypted && |rest| <= |encrypted|
    ensures contents <= queue <= contents + encrypted
  {
    assert queue == (contents + encrypted)[..|queue|];
    assert contents == (contents + encrypted)[..|contents|];
  }

  lemma FillingStart(cap: nat, input: seq<Bytes>)
    requires |input| == BUFFERS
    requires forall k :: 0 <= k < |input| ==> input[k] == []
    ensures Filling(cap, input, 0) && Queue(input) == []
  {
    QueueOfEmpty(input);
  }

  /** The filter holds no more than three buffers, so the fourth is never filled. */
  lemma Fits(i: nat, cap: nat, queued: nat, all: nat)
    requires queued >= i * cap + cap && all <= 3 * cap && queued < all
    ensures i + 1 < BUFFERS
  {
  }

  /**
   A run in which the assertion at the end of MoveSocketInput() fails: both buffers of the filter are full, and
   the worker thread goes on when they have been emptied.
   */
  method LeftBehind(unprotected: Bytes, decrypted: Bytes, encrypted: Bytes)
    returns (socket: FilteredSocket, lease: FilteredSocketLease)
    requires 0 < |unprotected| == |decrypted| && 0 < |encrypted| <= |unprotected|
    ensures Queue(lease.input) == unprotected + decrypted && socket.decrypted == encrypted[..1]
  {
    hide Queue;
    socket := new FilteredSocket(|unprotected|, unprotected, decrypted, encrypted);
    lease := new FilteredSocketLease(socket);
    var before: Worker := (k, u, d) => 0;
    var after: Worker := (k, u, d) => if u == 0 then 1 else 0;
    var moved, turns := lease.MoveSocketInput(before, after);
    SplitsSame(Queue(lease.input), socket.decrypted, socket.encrypted, unprotected + decrypted, encrypted);
  }

  lemma SplitsSame(a: Bytes, b: Bytes, c: Bytes, d: Bytes, e: Bytes)
    requires a + (b + c) == d + e && |b + c| == |e|
    ensures a == d && b == e[..|b|]
  {
    var all := d + e;
    assert a == all[..|a|] && d == all[..|d|];
    assert b + c == all[|a|..] && e == all[|d|..];
  }

  /** A content handler that has consumed something is not asked again, although there is more. */
  method StopsEarly(full: Bytes, x: Byte) returns (lease: FilteredSocketLease, d: Bytes, verdict: Verdict)
    requires full != []
    ensures lease.Valid() && d == full[..1] && verdict.Idle? && lease.Contents() == full[1..] + [x]
  {
    hide Queue;
    var socket := new FilteredSocket(|full|, full, [x], []);
    lease := new FilteredSocketLease(socket);
    lease.Release(true, (k, u, d) => 0, (k, u, d) => 0);
    ghost var all := full + [x];
    assert all + [] == all && lease.Contents() == all;
    d, verdict := lease.Ask(Answer(1, OK));
    assert d == all[..1] && lease.Contents() == all[1..];
    assert all[..1] == full[..1] && all[1..] == full[1..] + [x];
  }

  /** A handler that wants more without consuming anything is asked again and again, although no more can come. */
  method HungryForever(lease: FilteredSocketLease, n: nat) returns (ghost used: nat, output: Bytes)
    requires lease.Valid() && lease.socket == null && lease.Contents() != []
    modifies lease`input
    ensures used == n && output == [] && lease.Contents() == old(lease.Contents())
  {
    hide Queue;
    var answers := seq(n, k => Answer(0, MORE));
    var verdict;
    output, verdict, used := lease.ReadReleased(answers);
    assert [] + lease.Contents() == lease.Contents();
  }
}
