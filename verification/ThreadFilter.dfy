/**
 The protocol between the main thread and the worker thread of
 ThreadSocketFilter, with the identity filter.  Every critical section, and every
 piece of main thread code between two of them, is one atomic step; a run is any
 interleaving of steps.
 */
module ThreadFilter {
  import opened Octets

  /** The bytes from the peer to the handler; the two ends are histories. */
  datatype Inbound = Inbound(received: Bytes, sock: Bytes, encrypted: Bytes, decrypted: Bytes,
                             unprotected: Bytes, delivered: Bytes)

  /** The bytes from the handler to the peer; the two ends are histories. */
  datatype Outbound = Outbound(accepted: Bytes, plain: Bytes, encrypted: Bytes, sent: Bytes)

  /** The thread queue's view of the job; `rerun` means that it was added while it was running. */
  datatype Job = Initial | Waiting | Popped | Started | Moved | Finished

  datatype Worker = Worker(job: Job, rerun: bool, busy: bool, donePending: bool)

  /** What the socket has announced, what was postponed, and what the handler was told. */
  datatype Closing = Closing(connected: bool, remainingSeen: bool, endSeen: bool,
                             postponedRemaining: bool, postponedEnd: bool,
                             remainingTold: bool, endTold: bool)

  /** Where the main thread is. */
  datatype Place =
    | Free
    | MustSchedule(next: Place)
    | Copied(copy: Bytes)
    | Sent(n: nat)
    | DoneRemaining
    | DoneEnd
    | EndCheck

  datatype State = State(cap: nat, i: Inbound, o: Outbound, w: Worker, c: Closing, place: Place, wantWrite: bool)

  /** Init() schedules the job at once. */
  function Start(cap: nat): State {
    State(cap, Inbound([], [], [], [], [], []), Outbound([], [], [], []),
          Worker(Waiting, false, false, false),
          Closing(true, false, false, false, false, false, false), Free, false)
  }

  predicate Full(cap: nat, buffer: Bytes) {
    |buffer| >= cap
  }

  /** How many bytes a move takes. */
  function Room(cap: nat, dst: Bytes, src: Bytes): (n: nat)
    ensures n <= |src|
    ensures n == |src| || |dst| + n >= cap
    ensures |dst| <= cap ==> |dst| + n <= cap
    ensures !Full(cap, dst) && src != [] ==> n > 0
  {
    Min(|src|, if |dst| < cap then cap - |dst| else 0)
  }

  datatype Step =
    | Receive(d: Bytes)       // the socket reads from the peer
    | OnData                  // the socket offers its buffer to the filter
    | Schedule                // add the job to the thread queue
    | Write(d: Bytes)         // the handler writes
    | Consumed(n: nat)        // the handler consumes
    | AfterConsumed           // refill the handler's buffer
    | CopyOutput              // InternalWrite(): copy under the lock
    | WriteSocket(n: nat)     // InternalWrite(): write the copy without the lock
    | ConsumeOutput           // InternalWrite(): consume under the lock
    | PopJob                  // a worker takes the job
    | StartRun                // Run(): first critical section
    | RunFilter               // the identity filter
    | FinishRun               // Run(): last critical section
    | Wakeup                  // the queue hands the job back to the main thread
    | OnClosed
    | OnRemaining
    | OnEnd
    | TellRemaining           // Done(): deliver a postponed "remaining"
    | TellEnd                 // Done(): deliver a postponed "end"
    | CheckEnd                // OnEnd(): last critical section

  /** The handler may call the filter from the event loop and from within a callback. */
  predicate HandlerMay(place: Place) {
    place.Free? || place.DoneRemaining? || place.DoneEnd? || place.EndCheck?
  }

  predicate Enabled(s: State, step: Step) {
    match step
    case Receive(d) => s.place.Free? && s.c.connected && |s.i.sock| + |d| <= s.cap
    case OnData => s.place.Free? && s.i.sock != []
    case Schedule => s.place.MustSchedule?
    case Write(d) => HandlerMay(s.place) && s.c.connected
    case Consumed(n) => HandlerMay(s.place) && n <= |s.i.unprotected|
    case AfterConsumed => HandlerMay(s.place)
    case CopyOutput => s.place.Free? && s.c.connected && s.o.encrypted != []
    case WriteSocket(n) => s.place.Copied? && n <= |s.place.copy|
    case ConsumeOutput => s.place.Sent?
    case PopJob => s.w.job.Waiting?
    case StartRun => s.w.job.Popped?
    case RunFilter => s.w.job.Started?
    case FinishRun => s.w.job.Moved?
    case Wakeup => s.w.job.Finished? && s.place.Free?
    case OnClosed => s.place.Free? && s.c.connected
    case OnRemaining => s.place.Free? && !s.c.connected && !s.c.remainingSeen
    case OnEnd => s.place.Free? && s.c.remainingSeen && !s.c.endSeen && s.i.sock == []
    case TellRemaining => s.place.DoneRemaining?
    case TellEnd => s.place.DoneEnd?
    case CheckEnd => s.place.EndCheck?
  }

  // Input side

  function FromSocket(i: Inbound, n: nat): Inbound
    requires n <= |i.sock|
  {
    i.(encrypted := i.encrypted + i.sock[..n], sock := i.sock[n..])
  }

  function Decrypt(i: Inbound, n: nat): Inbound
    requires n <= |i.encrypted|
  {
    i.(decrypted := i.decrypted + i.encrypted[..n], encrypted := i.encrypted[n..])
  }

  function Unprotect(i: Inbound, n: nat): Inbound
    requires n <= |i.decrypted|
  {
    i.(unprotected := i.unprotected + i.decrypted[..n], decrypted := i.decrypted[n..])
  }

  function Deliver(i: Inbound, n: nat): Inbound
    requires n <= |i.unprotected|
  {
    i.(delivered := i.delivered + i.unprotected[..n], unprotected := i.unprotected[n..])
  }

  // Output side

  function Accept(o: Outbound, d: Bytes): Outbound {
    o.(accepted := o.accepted + d, plain := o.plain + d)
  }

  function Encrypt(o: Outbound, n: nat): Outbound
    requires n <= |o.plain|
  {
    o.(encrypted := o.encrypted + o.plain[..n], plain := o.plain[n..])
  }

  // Steps

  function DoOnData(s: State): State {
    if Full(s.cap, s.i.encrypted) then s
    else s.(i := FromSocket(s.i, Room(s.cap, s.i.encrypted, s.i.sock)), place := MustSchedule(s.place))
  }

  function Queue(w: Worker): Worker {
    match w.job
    case Initial => w.(job := Waiting)
    case Waiting => w
    case _ => w.(rerun := true)
  }

  function DoWrite(s: State, d: Bytes): State {
    var n := Room(s.cap, s.o.plain, d);
    s.(o := Accept(s.o, d[..n]), wantWrite := s.wantWrite || n < |d|,
       place := if n == 0 then s.place else MustSchedule(s.place))
  }

  /** MoveDecryptedInput(), to be followed by Schedule() if the buffer was full. */
  function DoAfterConsumed(s: State): State {
    if Full(s.cap, s.i.unprotected) then s
    else s.(i := Unprotect(s.i, Room(s.cap, s.i.unprotected, s.i.decrypted)),
            place := if Full(s.cap, s.i.decrypted) then MustSchedule(s.place) else s.place)
  }

  function DoWriteSocket(s: State, n: nat): State
    requires s.place.Copied? && n <= |s.place.copy|
  {
    if n == 0 then s.(place := Free)
    else s.(o := s.o.(sent := s.o.sent + s.place.copy[..n]), place := Sent(n))
  }

  function DoConsumeOutput(s: State): State
    requires s.place.Sent?
  {
    var rest := if s.place.n <= |s.o.encrypted| then s.o.encrypted[s.place.n..] else [];
    s.(o := s.o.(encrypted := rest), place := if Full(s.cap, s.o.encrypted) then MustSchedule(Free) else Free)
  }

  function DoRunFilter(s: State): State {
    s.(i := Decrypt(s.i, Room(s.cap, s.i.decrypted, s.i.encrypted)),
       o := Encrypt(s.o, Room(s.cap, s.o.encrypted, s.o.plain)),
       w := s.w.(job := Moved))
  }

  /** The queue runs the job once more, or calls Done(). */
  function DoWakeup(s: State): State {
    if s.w.rerun then s.(w := s.w.(job := Waiting, rerun := false)) else
    var s' := s.(w := s.w.(job := Initial, donePending := false));
    if s.c.postponedEnd && s.i.encrypted == [] then
      if s.c.postponedRemaining then s'.(place := DoneRemaining) else DoTellEnd(s')
    else
      s'
  }

  /** The worker is idle and has nothing left to filter. */
  predicate Quiet(s: State) {
    !s.w.busy && !s.w.donePending && s.i.encrypted == []
  }

  function DoOnRemaining(s: State): State {
    if s.i.sock == [] && Quiet(s) then s.(c := s.c.(remainingSeen := true, remainingTold := true))
    else s.(c := s.c.(remainingSeen := true, postponedRemaining := true))
  }

  function DoOnEnd(s: State): State {
    if !s.c.postponedRemaining then
      s.(c := s.c.(endSeen := true), place := EndCheck)
    else if Quiet(s) then
      s.(c := s.c.(endSeen := true, postponedRemaining := false, remainingTold := true), place := EndCheck)
    else
      s.(c := s.c.(endSeen := true, postponedEnd := true))
  }

  predicate Drained(i: Inbound) {
    i.decrypted == [] && i.unprotected == []
  }

  function DoTellEnd(s: State): State {
    s.(c := if Drained(s.i) then s.c.(endTold := true) else s.c, place := Free)
  }

  function DoCheckEnd(s: State): State {
    s.(c := if Drained(s.i) then s.c.(endTold := true) else s.c.(postponedEnd := true), place := Free)
  }

  function Next(s: State, step: Step): State
    requires Enabled(s, step)
  {
    match step
    case Receive(d) => s.(i := s.i.(received := s.i.received + d, sock := s.i.sock + d))
    case OnData => DoOnData(s)
    case Schedule => s.(w := Queue(s.w), place := s.place.next)
    case Write(d) => DoWrite(s, d)
    case Consumed(n) => s.(i := Deliver(s.i, n))
    case AfterConsumed => DoAfterConsumed(s)
    case CopyOutput => s.(place := Copied(s.o.encrypted))
    case WriteSocket(n) => DoWriteSocket(s, n)
    case ConsumeOutput => DoConsumeOutput(s)
    case PopJob => s.(w := s.w.(job := Popped))
    case StartRun => s.(w := s.w.(job := Started, busy := true))
    case RunFilter => DoRunFilter(s)
    case FinishRun => s.(w := s.w.(job := Finished, busy := false, donePending := true))
    case Wakeup => DoWakeup(s)
    case OnClosed => s.(c := s.c.(connected := false), wantWrite := false)
    case OnRemaining => DoOnRemaining(s)
    case OnEnd => DoOnEnd(s)
    case TellRemaining => s.(c := s.c.(postponedRemaining := false, remainingTold := true), place := DoneEnd)
    case TellEnd => DoTellEnd(s)
    case CheckEnd => DoCheckEnd(s)
  }

  // Bytes are neither lost nor duplicated nor reordered.

  ghost predicate Input(i: Inbound) {
    i.received == i.delivered + i.unprotected + i.decrypted + i.encrypted + i.sock
  }

  /** The bytes of the output buffer that the socket has taken already. */
  function InFlight(place: Place): nat {
    if place.Sent? then place.n else 0
  }

  /** `k` bytes of the output buffer have been sent already. */
  ghost predicate Output(o: Outbound, k: nat) {
    k <= |o.encrypted| && o.accepted == o.sent + o.encrypted[k..] + o.plain
  }

  lemma Shift(a: Bytes, b: Bytes, c: Bytes, n: nat)
    requires n <= |c|
    ensures a + (b + c[..n]) + c[n..] == a + b + c
  {
    assert c[..n] + c[n..] == c;
    assert a + (b + c[..n]) + c[n..] == a + b + (c[..n] + c[n..]);
  }

  lemma InputKept(s: State, step: Step)
    requires Input(s.i) && Enabled(s, step)
    ensures Input(Next(s, step).i)
  {
    match step
    case Receive(d) =>
      var front := s.i.delivered + s.i.unprotected + s.i.decrypted + s.i.encrypted;
      assert front + s.i.sock + d == front + (s.i.sock + d);
    case OnData => Shift(s.i.delivered + s.i.unprotected + s.i.decrypted, s.i.encrypted, s.i.sock, Room(s.cap, s.i.encrypted, s.i.sock));
    case Consumed(n) => Shift([], s.i.delivered, s.i.unprotected, n);
    case AfterConsumed => Shift(s.i.delivered, s.i.unprotected, s.i.decrypted, Room(s.cap, s.i.unprotected, s.i.decrypted));
    case RunFilter => Shift(s.i.delivered + s.i.unprotected, s.i.decrypted, s.i.encrypted, Room(s.cap, s.i.decrypted, s.i.encrypted));
    case _ =>
  }

  lemma OutputKept(s: State, step: Step)
    requires Output(s.o, InFlight(s.place)) && Copy(s) && Placed(s.place) && Enabled(s, step)
    ensures Output(Next(s, step).o, InFlight(Next(s, step).place))
  {
    match step
    case Write(d) =>
      var n, k := Room(s.cap, s.o.plain, d), InFlight(s.place);
      assert s.o.sent + s.o.encrypted[k..] + s.o.plain + d[..n] == s.o.sent + s.o.encrypted[k..] + (s.o.plain + d[..n]);
    case RunFilter =>
      var n, k := Room(s.cap, s.o.encrypted, s.o.plain), InFlight(s.place);
      Shift(s.o.sent, s.o.encrypted[k..], s.o.plain, n);
      assert (s.o.encrypted + s.o.plain[..n])[k..] == s.o.encrypted[k..] + s.o.plain[..n];
    case WriteSocket(n) =>
      assert s.place.copy[..n] == s.o.encrypted[..n];
      assert s.o.encrypted == s.o.encrypted[..n] + s.o.encrypted[n..] && s.o.encrypted[0..] == s.o.encrypted;
      assert s.o.sent + s.o.encrypted == s.o.sent + s.o.encrypted[..n] + s.o.encrypted[n..];
    case ConsumeOutput =>
      assert s.o.encrypted[s.place.n..][0..] == s.o.encrypted[s.place.n..];
    case _ =>
  }

  /** The copy is still the beginning of the buffer, though the worker may have appended to it. */
  ghost predicate Copy(s: State) {
    (s.place.Copied? ==> s.place.copy != [] && s.place.copy <= s.o.encrypted)
    && (s.place.Sent? ==> s.place.n > 0)
  }

  lemma CopyKept(s: State, step: Step)
    requires Copy(s) && Placed(s.place) && Enabled(s, step)
    ensures Copy(Next(s, step))
  {
  }

  ghost predicate InBounds(cap: nat, i: Inbound) {
    |i.sock| <= cap && |i.encrypted| <= cap && |i.decrypted| <= cap && |i.unprotected| <= cap
  }

  lemma InBoundsKept(s: State, step: Step)
    requires InBounds(s.cap, s.i) && Enabled(s, step)
    ensures InBounds(s.cap, Next(s, step).i)
  {
  }

  ghost predicate OutBounds(cap: nat, o: Outbound) {
    |o.plain| <= cap && |o.encrypted| <= cap
  }

  lemma OutBoundsKept(s: State, step: Step)
    requires OutBounds(s.cap, s.o) && Enabled(s, step)
    ensures OutBounds(s.cap, Next(s, step).o)
  {
  }

  // No wake-up is lost.

  /** The main thread only ever has one call of Schedule() ahead of it, and returns to the handler or the event loop. */
  ghost predicate Placed(place: Place) {
    match place
    case MustSchedule(next) => next.Free? || next.DoneRemaining? || next.DoneEnd? || next.EndCheck?
    case _ => true
  }

  ghost predicate Flags(w: Worker) {
    && (w.busy <==> w.job.Started? || w.job.Moved?)
    && (w.rerun ==> !w.job.Initial? && !w.job.Waiting?)
    && (w.job.Finished? ==> w.donePending)
    && (w.donePending ==> !w.job.Initial?)
  }

  /** The filter is going to run once more before the main thread looks for its result. */
  ghost predicate Coming(s: State) {
    s.place.MustSchedule? || s.w.rerun || s.w.job.Waiting? || s.w.job.Popped? || s.w.job.Started?
  }

  /** The filter has unfinished work only if it will run, or if the handler or the peer has to make room first. */
  ghost predicate Awake(s: State) {
    (s.i.encrypted != [] && !Coming(s) ==> Full(s.cap, s.i.decrypted))
    && (s.o.plain != [] && !Coming(s) ==> Full(s.cap, s.o.encrypted))
  }

  lemma AwakeKept(s: State, step: Step)
    requires Awake(s) && Flags(s.w) && Placed(s.place) && Enabled(s, step)
    ensures Awake(Next(s, step))
  {
  }

  lemma FlagsKept(s: State, step: Step)
    requires Flags(s.w) && Placed(s.place) && Enabled(s, step)
    ensures Flags(Next(s, step).w) && Placed(Next(s, step).place)
  {
  }

  // The end of the stream

  function Inner(place: Place): Place {
    if place.MustSchedule? then place.next else place
  }

  /** The handler is told "remaining" first and "end" last, and not before the filter has let go of every byte. */
  ghost predicate Told(c: Closing, i: Inbound) {
    && (c.remainingSeen ==> !c.connected)
    && (c.endSeen ==> c.remainingSeen && i.sock == [])
    && (c.remainingSeen <==> c.postponedRemaining || c.remainingTold)
    && !(c.postponedRemaining && c.remainingTold)
    && (c.remainingTold ==> i.sock == [] && i.encrypted == [])
    && (c.postponedEnd ==> c.endSeen)
    && (c.endTold ==> c.remainingTold && c.endSeen && Drained(i))
  }

  /** What the main thread relies on in the middle of Done() and of OnEnd(). */
  ghost predicate Midway(s: State) {
    && (s.c.endSeen && !s.c.postponedEnd && !s.c.endTold ==> Inner(s.place).EndCheck?)
    && match Inner(s.place)
       case DoneRemaining => s.c.postponedRemaining && s.c.postponedEnd && s.i.encrypted == []
       case DoneEnd => s.c.remainingTold && s.c.postponedEnd
       case EndCheck => s.c.remainingTold && s.c.endSeen && !s.c.postponedEnd && !s.c.endTold
       case _ => true
  }

  lemma ToldKept(s: State, step: Step)
    requires Told(s.c, s.i) && Midway(s) && Placed(s.place) && Enabled(s, step)
    ensures Told(Next(s, step).c, Next(s, step).i)
  {
  }

  lemma MidwayKept(s: State, step: Step)
    requires Told(s.c, s.i) && Midway(s) && Placed(s.place) && Enabled(s, step)
    ensures Midway(Next(s, step))
  {
  }

  // Every interleaving

  ghost predicate Inv(s: State) {
    && s.cap > 0
    && Input(s.i) && InBounds(s.cap, s.i)
    && Output(s.o, InFlight(s.place)) && OutBounds(s.cap, s.o) && Copy(s)
    && Placed(s.place) && Flags(s.w) && Awake(s)
    && Told(s.c, s.i) && Midway(s)
  }

  lemma InvStart(cap: nat)
    requires cap > 0
    ensures Inv(Start(cap))
  {
  }

  lemma InvKept(s: State, step: Step)
    requires Inv(s) && Enabled(s, step)
    ensures Inv(Next(s, step))
    ensures Next(s, step).cap == s.cap
  {
    assert Next(s, step).cap == s.cap;
    hide Next, Input, InBounds, Output, OutBounds, Copy, Placed, Flags, Awake, Told, Midway;
    InputKept(s, step);
    InBoundsKept(s, step);
    OutputKept(s, step);
    OutBoundsKept(s, step);
    CopyKept(s, step);
    FlagsKept(s, step);
    AwakeKept(s, step);
    ToldKept(s, step);
    MidwayKept(s, step);
  }

  ghost predicate Runs(s: State, steps: seq<Step>)
    decreases |steps|
  {
    steps == [] || (Enabled(s, steps[0]) && Runs(Next(s, steps[0]), steps[1..]))
  }

  ghost function After(s: State, steps: seq<Step>): State
    requires Runs(s, steps)
    decreases |steps|
  {
    if steps == [] then s else After(Next(s, steps[0]), steps[1..])
  }

  lemma {:induction false} RunKeeps(s: State, steps: seq<Step>)
    requires Inv(s) && Runs(s, steps)
    ensures Inv(After(s, steps))
    decreases |steps|
  {
    hide Inv, Next, Enabled;
    if steps != [] {
      InvKept(s, steps[0]);
      RunKeeps(Next(s, steps[0]), steps[1..]);
    }
  }

  /** A state that some interleaving reaches. */
  ghost predicate Reachable(s: State) {
    exists steps :: s.cap > 0 && Runs(Start(s.cap), steps) && After(Start(s.cap), steps) == s
  }

  lemma ReachableInv(s: State)
    requires Reachable(s)
    ensures Inv(s)
  {
    var steps :| s.cap > 0 && Runs(Start(s.cap), steps) && After(Start(s.cap), steps) == s;
    InvStart(s.cap);
    RunKeeps(Start(s.cap), steps);
  }

  /** What arrives at either end is a prefix of what entered at the other. */
  lemma NothingInvented(s: State)
    requires Reachable(s)
    ensures s.i.delivered <= s.i.received
    ensures s.o.sent <= s.o.accepted
  {
    ReachableInv(s);
  }

  /** When the handler learns that the stream has ended, it has got every byte. */
  lemma EndIsLast(s: State)
    requires Reachable(s) && s.c.endTold
    ensures s.i.delivered == s.i.received
    ensures s.c.remainingTold && !s.c.connected
  {
    ReachableInv(s);
  }

  /** The amount that the handler is told remains is what it has not got yet. */
  lemma RemainingIsExact(s: State, step: Step)
    requires Reachable(s) && Enabled(s, step)
    requires !s.c.remainingTold && Next(s, step).c.remainingTold
    ensures |s.i.received| - |s.i.delivered| == |s.i.decrypted| + |s.i.unprotected|
  {
    ReachableInv(s);
    hide Reachable, Output, Awake, Flags, Full;
  }

  /** The assertion in OnEnd(): nothing is left to be decrypted. */
  lemma EndFindsNoInput(s: State)
    requires Reachable(s) && s.place.EndCheck?
    ensures s.i.encrypted == []
  {
    ReachableInv(s);
  }

  /** When nothing is going to happen by itself, the filter waits for somebody else to make room. */
  lemma IdleMeansBlocked(s: State)
    requires Reachable(s) && s.place.Free? && s.w.job.Initial?
    ensures s.i.encrypted == [] || |s.i.decrypted| == s.cap
    ensures s.o.plain == [] || |s.o.encrypted| == s.cap
  {
    ReachableInv(s);
  }

  // Everything arrives, if the handler and the peer keep reading.

  /** The peer has nothing left to read; after the socket was closed, it does not read. */
  predicate Flushed(s: State) {
    s.c.connected ==> s.o.encrypted == []
  }

  predicate Settled(s: State) {
    s.place.Free? && Drained(s.i) && Flushed(s) && s.w.job.Initial?
  }

  /** One step of a schedule that lets the handler and the peer read whatever there is. */
  function Pick(s: State): Step {
    match s.place
    case MustSchedule(_) => Schedule
    case Copied(copy) => WriteSocket(|copy|)
    case Sent(_) => ConsumeOutput
    case DoneRemaining => TellRemaining
    case DoneEnd => TellEnd
    case EndCheck => CheckEnd
    case Free =>
      if s.i.unprotected != [] then Consumed(|s.i.unprotected|)
      else if s.i.decrypted != [] then AfterConsumed
      else if !Flushed(s) then CopyOutput
      else match s.w.job
        case Initial => OnData
        case Waiting => PopJob
        case Popped => StartRun
        case Started => RunFilter
        case Moved => FinishRun
        case Finished => Wakeup
  }

  ghost predicate Final(s: State) {
    Settled(s) && s.i.sock == []
  }

  /** How far the bytes have to travel. */
  function Weight(s: State): nat {
    4 * |s.i.sock| + 3 * |s.i.encrypted| + 2 * |s.i.decrypted| + |s.i.unprotected| + 2 * |s.o.plain| + |s.o.encrypted|
  }

  function PlaceRank(place: Place): nat {
    match place
    case Sent(_) => 0
    case Copied(_) => 1
    case Free => 2
    case EndCheck => 4
    case DoneEnd => 4
    case DoneRemaining => 6
    case MustSchedule(next) => 31 + PlaceRank(next)
  }

  function JobRank(w: Worker): nat {
    (if w.rerun then 6 else 0) +
    match w.job
    case Initial => 0
    case Finished => 1
    case Moved => 2
    case Started => 3
    case Popped => 4
    case Waiting => 5
  }

  function Rank(s: State): nat {
    5 * JobRank(s.w) + PlaceRank(s.place)
  }

  lemma PickEnabled(s: State)
    requires Inv(s) && !Final(s)
    ensures Enabled(s, Pick(s))
  {
    hide Input, Output, Told, Midway;
  }

  ghost predicate Closer(s: State, s': State) {
    Weight(s') < Weight(s) || (Weight(s') == Weight(s) && Rank(s') < Rank(s))
  }

  lemma UnwindProgresses(s: State)
    requires !s.place.Free? && Enabled(s, Pick(s))
    requires Copy(s) && InFlight(s.place) <= |s.o.encrypted|
    ensures Closer(s, Next(s, Pick(s)))
  {
  }

  lemma ReadProgresses(s: State)
    requires s.place.Free? && Enabled(s, Pick(s)) && s.cap > 0
    requires !Drained(s.i) || !Flushed(s)
    ensures Closer(s, Next(s, Pick(s)))
  {
  }

  lemma FilterProgresses(s: State)
    requires s.place.Free? && s.w.job.Started? && s.cap > 0
    ensures Closer(s, Next(s, RunFilter))
  {
  }

  lemma InputProgresses(s: State)
    requires s.place.Free? && s.w.job.Initial? && s.cap > 0 && Enabled(s, OnData)
    requires Drained(s.i) && Awake(s) && Flags(s.w)
    ensures Closer(s, Next(s, OnData))
  {
  }

  /** The worker's own steps bring the job closer to its end. */
  lemma WorkerProgresses(s: State, step: Step)
    requires step == PopJob || step == StartRun || step == FinishRun
    requires Enabled(s, step)
    ensures Closer(s, Next(s, step))
  {
    hide Full;
  }

  lemma WakeupProgresses(s: State)
    requires s.place.Free? && s.w.job.Finished?
    ensures Closer(s, Next(s, Wakeup))
  {
    hide Full;
  }

  lemma JobProgresses(s: State)
    requires s.place.Free? && Enabled(s, Pick(s)) && s.cap > 0
    requires Drained(s.i) && Flushed(s) && Awake(s) && Flags(s.w)
    ensures Closer(s, Next(s, Pick(s)))
  {
    var step := Pick(s);
    hide Closer, Next, Enabled, Awake, Flags;
    match s.w.job
    case Initial => InputProgresses(s);
    case Waiting => WorkerProgresses(s, step);
    case Popped => WorkerProgresses(s, step);
    case Started => FilterProgresses(s);
    case Moved => WorkerProgresses(s, step);
    case Finished => WakeupProgresses(s);
  }

  lemma PickProgresses(s: State)
    requires Inv(s) && Enabled(s, Pick(s))
    ensures Closer(s, Next(s, Pick(s)))
  {
    hide Closer, Next, Enabled, Pick, Input, Awake, Flags, Told, Midway;
    if !s.place.Free? {
      UnwindProgresses(s);
    } else if !Drained(s.i) || !Flushed(s) {
      ReadProgresses(s);
    } else {
      JobProgresses(s);
    }
  }

  /** No new bytes enter at either end, and the socket does not change. */
  predicate NothingNew(step: Step) {
    !step.Receive? && !step.Write? && !step.OnClosed? && !step.OnRemaining? && !step.OnEnd?
  }

  ghost predicate AllNothingNew(steps: seq<Step>) {
    forall k :: 0 <= k < |steps| ==> NothingNew(steps[k])
  }

  lemma NothingNewKeeps(s: State, step: Step)
    requires Enabled(s, step) && NothingNew(step)
    ensures Next(s, step).i.received == s.i.received
    ensures Next(s, step).o.accepted == s.o.accepted
    ensures Next(s, step).c.connected == s.c.connected
    ensures s.c.postponedEnd ==> Next(s, step).c.postponedEnd
  {
    hide Room;
  }

  /** A postponed "end" will still be looked at. */
  ghost predicate Hope(s: State) {
    s.c.endTold || !s.w.job.Initial? || Full(s.cap, s.i.decrypted) || s.place.MustSchedule?
    || ((s.place.DoneRemaining? || s.place.DoneEnd?) && Drained(s.i))
  }

  lemma HopeUnwind(s: State)
    requires !s.place.Free? && Enabled(s, Pick(s)) && s.c.postponedEnd && Hope(s) && Midway(s)
    ensures Hope(Next(s, Pick(s)))
  {
  }

  lemma HopeRead(s: State)
    requires s.place.Free? && Enabled(s, Pick(s)) && Hope(s)
    requires !Drained(s.i) || !Flushed(s)
    ensures Hope(Next(s, Pick(s)))
  {
    hide Room;
  }

  lemma HopeWakeup(s: State)
    requires s.place.Free? && s.w.job.Finished? && s.c.postponedEnd
    requires Drained(s.i) && s.cap > 0 && Awake(s)
    ensures Hope(Next(s, Wakeup))
  {
  }

  lemma HopeWorker(s: State, step: Step)
    requires step == PopJob || step == StartRun || step == RunFilter || step == FinishRun
    requires Enabled(s, step)
    ensures Hope(Next(s, step))
  {
    hide Full, Room, Decrypt, Encrypt;
  }

  lemma HopeTold(s: State, step: Step)
    requires s.c.endTold && Enabled(s, step)
    ensures Hope(Next(s, step))
  {
    hide Room, Full;
  }

  lemma HopeJob(s: State)
    requires s.place.Free? && Enabled(s, Pick(s)) && s.c.postponedEnd && Hope(s)
    requires Drained(s.i) && Flushed(s) && s.cap > 0 && Awake(s)
    ensures Hope(Next(s, Pick(s)))
  {
    var step := Pick(s);
    assert s.w.job.Initial? ==> s.c.endTold;
    hide Hope, Next, Enabled, Awake;
    match s.w.job
    case Initial => HopeTold(s, step);
    case Finished => HopeWakeup(s);
    case _ => HopeWorker(s, step);
  }

  lemma HopeKept(s: State)
    requires Inv(s) && Enabled(s, Pick(s)) && s.c.postponedEnd && Hope(s)
    ensures Hope(Next(s, Pick(s)))
  {
    hide Hope, Next, Enabled, Pick, Input, Output, Awake, Flags, Told, Midway;
    if !s.place.Free? {
      HopeUnwind(s);
    } else if !Drained(s.i) || !Flushed(s) {
      HopeRead(s);
    } else {
      HopeJob(s);
    }
  }

  lemma FinalMeans(s: State)
    requires Inv(s) && Final(s)
    ensures s.i.delivered == s.i.received && (s.c.connected ==> s.o.sent == s.o.accepted)
    ensures Hope(s) ==> s.c.endTold
  {
    hide Told, Midway;
  }

  lemma RunsCons(s: State, step: Step, steps: seq<Step>)
    requires Enabled(s, step) && Runs(Next(s, step), steps)
    ensures Runs(s, [step] + steps)
    ensures After(s, [step] + steps) == After(Next(s, step), steps)
  {
    hide Enabled, Next;
    assert ([step] + steps)[1..] == steps;
  }

  /**
   From wherever the filter is, it can hand over everything without any new bytes coming in, in
   both directions while the socket is connected; and it can tell a postponed "end" if there is hope.
   */
  lemma {:induction false} Settles(s: State) returns (steps: seq<Step>)
    requires Inv(s)
    ensures Runs(s, steps) && AllNothingNew(steps)
    ensures After(s, steps).i.delivered == s.i.received
    ensures s.c.connected ==> After(s, steps).o.sent == s.o.accepted
    ensures s.c.postponedEnd && Hope(s) ==> After(s, steps).c.endTold
    decreases Weight(s), Rank(s)
  {
    hide Inv, Enabled, Next, Pick, Hope, Final, NothingNew;
    if Final(s) {
      FinalMeans(s);
      steps := [];
    } else {
      PickEnabled(s);
      PickIsNothingNew(s);
      var step := Pick(s);
      InvKept(s, step);
      NothingNewKeeps(s, step);
      PickProgresses(s);
      if s.c.postponedEnd && Hope(s) {
        HopeKept(s);
      }
      var rest := Settles(Next(s, step));
      RunsCons(s, step, rest);
      steps := [step] + rest;
    }
  }

  lemma PickIsNothingNew(s: State)
    ensures NothingNew(Pick(s))
  {
  }

  // Whether a postponed "end" is ever told

  /** Nobody will look at the postponed "end" again. */
  ghost predicate Forgotten(s: State) {
    && s.c.postponedEnd && !s.c.endTold && s.c.endSeen && s.c.remainingSeen && !s.c.connected
    && s.i.sock == [] && s.i.encrypted == [] && !Full(s.cap, s.i.decrypted)
    && s.w.job.Initial? && !s.w.rerun && s.place.Free?
  }

  lemma ForgottenKept(s: State, step: Step)
    requires Forgotten(s) && Enabled(s, step)
    ensures Forgotten(Next(s, step))
  {
  }

  lemma {:induction false} ForgottenStays(s: State, steps: seq<Step>)
    requires Forgotten(s) && Runs(s, steps)
    ensures !After(s, steps).c.endTold
    decreases |steps|
  {
    hide Enabled, Next, Forgotten;
    if steps == [] {
      assert !s.c.endTold by { ForgottenMeans(s); }
    } else {
      ForgottenKept(s, steps[0]);
      ForgottenStays(Next(s, steps[0]), steps[1..]);
    }
  }

  lemma ForgottenMeans(s: State)
    requires Forgotten(s)
    ensures !s.c.endTold
  {
  }

  /**
   OnEnd() promises to forward the "end" as soon as the input buffers become empty.  There is a
   continuation that forwards it at all exactly if the job is not idle or a full input buffer is
   going to wake it up.
   */
  lemma EndComes(s: State)
    requires Reachable(s) && s.place.Free? && s.c.postponedEnd && !s.c.endTold
    ensures (exists steps :: Runs(s, steps) && After(s, steps).c.endTold)
        <==> !s.w.job.Initial? || |s.i.decrypted| == s.cap
  {
    ReachableInv(s);
    hide Reachable;
    if !s.w.job.Initial? || |s.i.decrypted| == s.cap {
      var steps := Settles(s);
    } else {
      assert Forgotten(s);
      forall steps | Runs(s, steps)
        ensures !After(s, steps).c.endTold
      {
        ForgottenStays(s, steps);
      }
    }
  }

  // Whether a postponed "end" can still be lost

  /** The bytes that the handler has not got yet. */
  function Undelivered(i: Inbound): nat {
    |i.unprotected| + |i.decrypted| + |i.encrypted|
  }

  /** The last byte waits for the handler, and the job is idle. */
  predicate HeldBack(s: State) {
    s.place.Free? && s.w.job.Initial? && s.i.decrypted == [] && s.i.encrypted == []
  }

  /** One step of a schedule in which the handler holds the last byte back. */
  function LazyPick(s: State): Step {
    if !s.place.Free? then Pick(s)
    else if s.i.unprotected != [] && Undelivered(s.i) > 1 then Consumed(Min(|s.i.unprotected|, Undelivered(s.i) - 1))
    else if s.i.decrypted != [] && !Full(s.cap, s.i.unprotected) then AfterConsumed
    else match s.w.job
      case Initial => AfterConsumed
      case Waiting => PopJob
      case Popped => StartRun
      case Started => RunFilter
      case Moved => FinishRun
      case Finished => Wakeup
  }

  lemma LazyEnabled(s: State)
    requires Placed(s.place)
    ensures Enabled(s, LazyPick(s))
  {
  }

  lemma LazyReads(s: State)
    requires s.place.Free? && s.cap > 0
    requires (s.i.unprotected != [] && Undelivered(s.i) > 1) || (s.i.decrypted != [] && !Full(s.cap, s.i.unprotected))
    ensures Enabled(s, LazyPick(s)) && Closer(s, Next(s, LazyPick(s)))
  {
  }

  /** Where only the job can go on, it can. */
  lemma LazyWaits(s: State)
    requires s.place.Free? && s.cap > 0 && Awake(s) && Flags(s.w) && Undelivered(s.i) > 0 && !HeldBack(s)
    requires !(s.i.unprotected != [] && Undelivered(s.i) > 1) && !(s.i.decrypted != [] && !Full(s.cap, s.i.unprotected))
    ensures !s.w.job.Initial?
  {
  }

  lemma LazyProgresses(s: State)
    requires Inv(s) && Undelivered(s.i) > 0 && !HeldBack(s)
    ensures Enabled(s, LazyPick(s)) && Closer(s, Next(s, LazyPick(s)))
  {
    LazyEnabled(s);
    if !s.place.Free? {
      hide Closer, Next, Enabled, Pick;
      UnwindProgresses(s);
    } else if (s.i.unprotected != [] && Undelivered(s.i) > 1) || (s.i.decrypted != [] && !Full(s.cap, s.i.unprotected)) {
      hide Closer, Next, Enabled, LazyPick;
      LazyReads(s);
    } else {
      LazyWaits(s);
      var step := LazyPick(s);
      hide Closer, Next, Enabled;
      match s.w.job
      case Waiting => WorkerProgresses(s, step);
      case Popped => WorkerProgresses(s, step);
      case Started => FilterProgresses(s);
      case Moved => WorkerProgresses(s, step);
      case Finished => WakeupProgresses(s);
    }
  }

  /** While a byte is held back, a postponed "end" is not told. */
  lemma LazyKeeps(s: State)
    requires Told(s.c, s.i) && Midway(s) && Placed(s.place) && Undelivered(s.i) > 0 && s.c.postponedEnd && !s.c.endTold
    requires Enabled(s, LazyPick(s))
    ensures var s' := Next(s, LazyPick(s)); Undelivered(s'.i) > 0 && s'.c.postponedEnd && !s'.c.endTold
  {
  }

  lemma HeldBackMeans(s: State)
    requires Inv(s) && HeldBack(s) && s.c.postponedEnd && !s.c.endTold
    ensures Forgotten(s)
  {
  }

  lemma {:induction false} Loses(s: State) returns (steps: seq<Step>)
    requires Inv(s) && Undelivered(s.i) > 0 && s.c.postponedEnd && !s.c.endTold
    ensures Runs(s, steps) && Forgotten(After(s, steps))
    decreases Weight(s), Rank(s)
  {
    if HeldBack(s) {
      HeldBackMeans(s);
      steps := [];
    } else {
      LazyProgresses(s);
      LazyKeeps(s);
      hide Inv, Enabled, Next, LazyPick, HeldBack, Undelivered, Forgotten;
      var step := LazyPick(s);
      InvKept(s, step);
      var rest := Loses(Next(s, step));
      RunsCons(s, step, rest);
      steps := [step] + rest;
    }
  }

  /** The handler has got everything, and the job has not been handed back yet: the "end" will be told. */
  ghost predicate Sure(s: State) {
    s.cap > 0 && (s.c.endTold ||
      (&& s.c.postponedEnd && s.c.endSeen && s.c.remainingSeen && !s.c.connected
       && s.i.sock == [] && s.i.encrypted == [] && Drained(s.i)
       && (s.place.DoneRemaining? || s.place.DoneEnd? || (s.place.Free? && !s.w.job.Initial?))))
  }

  lemma SureKept(s: State, step: Step)
    requires Sure(s) && Enabled(s, step)
    ensures Sure(Next(s, step))
  {
  }

  lemma {:induction false} SureStays(s: State, steps: seq<Step>)
    requires Sure(s) && Runs(s, steps)
    ensures !Forgotten(After(s, steps))
    decreases |steps|
  {
    if steps == [] {
      assert !Forgotten(s);
    } else {
      hide Enabled, Next, Forgotten, Sure;
      SureKept(s, steps[0]);
      SureStays(Next(s, steps[0]), steps[1..]);
    }
  }

  /**
   The other side of EndComes: there is a continuation that loses the "end" for good exactly if the
   job is idle already, or there is a byte that the handler can hold back until it is.
   */
  lemma EndIsLost(s: State)
    requires Reachable(s) && s.place.Free? && s.c.postponedEnd && !s.c.endTold
    ensures (exists steps :: Runs(s, steps) && Forgotten(After(s, steps)))
        <==> s.w.job.Initial? || !Drained(s.i) || s.i.encrypted != []
  {
    ReachableInv(s);
    hide Reachable;
    if Undelivered(s.i) > 0 {
      var steps := Loses(s);
    } else if s.w.job.Initial? {
      HeldBackMeans(s);
      assert Runs(s, []) && After(s, []) == s;
    } else {
      forall steps | Runs(s, steps)
        ensures !Forgotten(After(s, steps))
      {
        SureStays(s, steps);
      }
    }
  }

  lemma {:induction false} RunsJoin(s: State, a: seq<Step>, b: seq<Step>)
    requires Runs(s, a) && Runs(After(s, a), b)
    ensures Runs(s, a + b) && After(s, a + b) == After(After(s, a), b)
    decreases |a|
  {
    hide Enabled, Next;
    if a == [] {
      assert a + b == b;
    } else {
      assert (a + b)[1..] == a[1..] + b;
      RunsJoin(Next(s, a[0]), a[1..], b);
    }
  }

  lemma RunsOne(s: State, step: Step)
    requires Enabled(s, step)
    ensures Runs(s, [step]) && After(s, [step]) == Next(s, step)
  {
    assert [step][1..] == [];
  }

  lemma ReachNext(s: State, step: Step)
    requires Reachable(s) && Enabled(s, step)
    ensures Reachable(Next(s, step))
  {
    assert Next(s, step).cap == s.cap;
    hide Enabled, Next, Runs, After, Start;
    var steps :| s.cap > 0 && Runs(Start(s.cap), steps) && After(Start(s.cap), steps) == s;
    RunsOne(s, step);
    RunsJoin(Start(s.cap), steps, [step]);
  }

  /** The job is at rest, the handler is not told anything, and nothing is left in the socket. */
  ghost predicate AtRest(s: State, cap: nat, job: Job) {
    s.cap == cap && s.place.Free? && s.w.job == job && !s.w.rerun && !s.w.busy && !s.w.donePending
    && s.c.connected && !s.c.remainingSeen && !s.c.endSeen && !s.c.postponedRemaining && !s.c.postponedEnd && !s.c.endTold
    && s.i.sock == []
  }

  lemma ByteReceived(cap: nat, b: Byte) returns (s: State)
    requires cap > 1
    ensures Reachable(s) && AtRest(s, cap, Waiting)
    ensures s.i.encrypted == [b] && s.i.decrypted == [] && s.i.unprotected == []
    ensures s.o.plain == [] && s.o.encrypted == []
  {
    s := Start(cap);
    assert Runs(s, []) && After(s, []) == s;
    ReachNext(s, Receive([b]));
    s := Next(s, Receive([b]));
    ReachNext(s, OnData);
    s := Next(s, OnData);
    ReachNext(s, Schedule);
    s := Next(s, Schedule);
  }

  lemma BytesWritten(s0: State, cap: nat, d: Bytes) returns (s: State)
    requires Reachable(s0) && AtRest(s0, cap, Waiting) && s0.o.plain == [] && |d| <= cap
    ensures Reachable(s) && AtRest(s, cap, Waiting) && s.i == s0.i
    ensures s.o.plain == d && s.o.encrypted == s0.o.encrypted
  {
    hide Reachable;
    s := s0;
    ReachNext(s, Write(d));
    s := Next(s, Write(d));
    assert d[..|d|] == d && [] + d == d;
    if d != [] {
      ReachNext(s, Schedule);
      s := Next(s, Schedule);
    }
  }

  lemma ByteFiltered(s0: State, cap: nat, b: Byte, d: Bytes) returns (s: State)
    requires Reachable(s0) && AtRest(s0, cap, Waiting) && cap > 1
    requires s0.i.encrypted == [b] && s0.i.decrypted == [] && s0.i.unprotected == []
    requires s0.o.plain == d && s0.o.encrypted == [] && |d| <= cap
    ensures Reachable(s) && AtRest(s, cap, Initial)
    ensures s.i.encrypted == [] && s.i.decrypted == [b] && s.i.unprotected == []
    ensures s.o.encrypted == d
  {
    hide Reachable;
    s := s0;
    ReachNext(s, PopJob);
    s := Next(s, PopJob);
    ReachNext(s, StartRun);
    s := Next(s, StartRun);
    ReachNext(s, RunFilter);
    s := Next(s, RunFilter);
    assert d[..|d|] == d && [] + d == d;
    ReachNext(s, FinishRun);
    s := Next(s, FinishRun);
    ReachNext(s, Wakeup);
    s := Next(s, Wakeup);
  }

  lemma ByteKept(s0: State, cap: nat, b: Byte) returns (s: State)
    requires Reachable(s0) && AtRest(s0, cap, Initial) && cap > 1
    requires s0.i.encrypted == [] && s0.i.decrypted == [b] && s0.i.unprotected == []
    ensures Reachable(s) && Forgotten(s) && s.cap == cap
    ensures Drained(s.i) && s.o == s0.o
  {
    hide Reachable;
    s := s0;
    ReachNext(s, AfterConsumed);
    s := Next(s, AfterConsumed);
    ReachNext(s, OnClosed);
    s := Next(s, OnClosed);
    ReachNext(s, OnRemaining);
    s := Next(s, OnRemaining);
    ReachNext(s, OnEnd);
    s := Next(s, OnEnd);
    ReachNext(s, CheckEnd);
    s := Next(s, CheckEnd);
    ReachNext(s, Consumed(1));
    s := Next(s, Consumed(1));
  }

  /**
   The "end" is postponed, the handler consumes everything, and yet the "end" is never told; that the
   output buffer is not empty, or even full, does not help.
   */
  lemma EndForgotten(cap: nat, b: Byte, d: Bytes) returns (s: State)
    requires cap > 1 && |d| <= cap
    ensures Reachable(s) && s.cap == cap && s.place.Free? && Drained(s.i) && s.o.encrypted == d
    ensures s.c.postponedEnd && !s.c.endTold
    ensures forall steps :: Runs(s, steps) ==> !After(s, steps).c.endTold
  {
    hide Reachable, AtRest;
    s := ByteReceived(cap, b);
    s := BytesWritten(s, cap, d);
    s := ByteFiltered(s, cap, b, d);
    s := ByteKept(s, cap, b);
    forall steps | Runs(s, steps)
      ensures !After(s, steps).c.endTold
    {
      ForgottenStays(s, steps);
    }
  }

  /** The worker is done with the byte, but the main thread has not noticed. */
  ghost predicate Unnoticed(s: State, cap: nat, b: Byte) {
    s.cap == cap && s.place.Free? && s.w.job.Finished? && !s.w.rerun && s.w.donePending
    && s.i.sock == [] && s.i.encrypted == [] && s.i.decrypted == [b] && s.i.unprotected == []
  }

  lemma ByteFinished(s0: State, cap: nat, b: Byte) returns (s: State)
    requires Reachable(s0) && AtRest(s0, cap, Waiting) && cap > 1
    requires s0.i.encrypted == [b] && s0.i.decrypted == [] && s0.i.unprotected == []
    ensures Reachable(s) && Unnoticed(s, cap, b) && s.c == s0.c
  {
    hide Reachable;
    s := s0;
    ReachNext(s, PopJob);
    s := Next(s, PopJob);
    ReachNext(s, StartRun);
    s := Next(s, StartRun);
    ReachNext(s, RunFilter);
    s := Next(s, RunFilter);
    ReachNext(s, FinishRun);
    s := Next(s, FinishRun);
  }

  lemma BothPostponed(s0: State, cap: nat, b: Byte) returns (s: State)
    requires Reachable(s0) && Unnoticed(s0, cap, b)
    requires s0.c.connected && !s0.c.remainingSeen && !s0.c.endSeen && !s0.c.endTold
    ensures Reachable(s) && Unnoticed(s, cap, b)
    ensures s.c.postponedEnd && s.c.postponedRemaining && !s.c.endTold && s.c.endSeen && s.c.remainingSeen && !s.c.connected
  {
    hide Reachable;
    s := s0;
    ReachNext(s, OnClosed);
    s := Next(s, OnClosed);
    ReachNext(s, OnRemaining);
    s := Next(s, OnRemaining);
    ReachNext(s, OnEnd);
    s := Next(s, OnEnd);
  }

  /**
   A handler that does not consume its last byte during Done(), but right after it: the "end" could have
   been told, but it is lost.
   */
  lemma EndHeldBack(cap: nat, b: Byte) returns (s: State, lost: State)
    requires cap > 1
    ensures Reachable(s) && s.place.Free? && s.c.postponedEnd && !s.c.endTold && !s.w.job.Initial?
    ensures var steps := [Wakeup, AfterConsumed, TellRemaining, TellEnd, Consumed(1)];
      Runs(s, steps) && After(s, steps) == lost
    ensures Forgotten(lost) && Drained(lost.i)
  {
    s := ByteReceived(cap, b);
    s := ByteFinished(s, cap, b);
    s := BothPostponed(s, cap, b);
    hide Reachable, AtRest;
    var s1 := Next(s, Wakeup);
    var s2 := Next(s1, AfterConsumed);
    var s3 := Next(s2, TellRemaining);
    var s4 := Next(s3, TellEnd);
    lost := Next(s4, Consumed(1));
    RunsOne(s4, Consumed(1));
    RunsCons(s3, TellEnd, [Consumed(1)]);
    RunsCons(s2, TellRemaining, [TellEnd] + [Consumed(1)]);
    RunsCons(s1, AfterConsumed, [TellRemaining] + ([TellEnd] + [Consumed(1)]));
    RunsCons(s, Wakeup, [AfterConsumed] + ([TellRemaining] + ([TellEnd] + [Consumed(1)])));
    assert [Wakeup] + ([AfterConsumed] + ([TellRemaining] + ([TellEnd] + [Consumed(1)])))
        == [Wakeup, AfterConsumed, TellRemaining, TellEnd, Consumed(1)];
  }
}
