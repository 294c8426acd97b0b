/**
 ThreadSocketFilter itself: every call from the event loop, the handler or the worker
 is a run of the steps of the protocol.  What other threads do in between is the
 protocol's business, not this class's.
 */
module ThreadSocket {
  import opened Octets
  import opened ThreadFilter

  ghost predicate Took(before: State, steps: seq<Step>, after: State) {
    Runs(before, steps) && After(before, steps) == after
  }

  lemma TookNone(s: State)
    ensures Took(s, [], s)
  {
  }

  lemma TookOne(s: State, step: Step)
    requires Enabled(s, step)
    ensures Took(s, [step], Next(s, step))
  {
    RunsOne(s, step);
  }

  lemma TookTwo(s: State, first: Step, second: Step)
    requires Enabled(s, first) && Enabled(Next(s, first), second)
    ensures Took(s, [first, second], Next(Next(s, first), second))
  {
    hide Enabled, Next;
    RunsOne(s, first);
    RunsOne(Next(s, first), second);
    RunsJoin(s, [first], [second]);
    assert [first] + [second] == [first, second];
  }

  lemma TookMore(s: State, a: seq<Step>, s1: State, b: seq<Step>, s2: State)
    requires Took(s, a, s1) && Took(s1, b, s2)
    ensures Took(s, a + b, s2)
  {
    RunsJoin(s, a, b);
  }

  /** What the handler consumed, call by call. */
  ghost function Taken(steps: seq<Step>): seq<nat>
    decreases |steps|
  {
    if steps == [] then [] else
    (if steps[0].Consumed? then [steps[0].n] else []) + Taken(steps[1..])
  }

  lemma Joined(a: seq<nat>, b: seq<nat>, c: seq<nat>)
    ensures a + (b + c) == a + b + c
  {
  }

  lemma {:induction false} TakenConcat(a: seq<Step>, b: seq<Step>)
    ensures Taken(a + b) == Taken(a) + Taken(b)
    decreases |a|
  {
    if a == [] {
      assert a + b == b;
    } else {
      var ab := a + b;
      assert ab[0] == a[0] && ab[1..] == a[1..] + b;
      TakenConcat(a[1..], b);
      Joined(if a[0].Consumed? then [a[0].n] else [], Taken(a[1..]), Taken(b));
    }
  }

  lemma TakenNone()
    ensures Taken([]) == []
  {
  }

  lemma ReadingNone()
    ensures AllReading([])
  {
  }

  lemma TakenOne(step: Step)
    ensures Taken([step]) == if step.Consumed? then [step.n] else []
  {
    assert [step][1..] == [];
  }

  ghost function Sum(amounts: seq<nat>): nat {
    if amounts == [] then 0 else amounts[0] + Sum(amounts[1..])
  }

  /** An empty buffer is refilled before the handler is asked. */
  ghost predicate RefillsFirst(buffer: Bytes, steps: seq<Step>) {
    buffer == [] ==> steps != [] && steps[0] == Step.AfterConsumed
  }

  /** The steps of a handler that reads. */
  predicate Reading(step: Step) {
    step.Consumed? || step.AfterConsumed? || step.Schedule?
  }

  ghost predicate AllReading(steps: seq<Step>) {
    forall k :: 0 <= k < |steps| ==> Reading(steps[k])
  }

  ghost function Readable(i: Inbound): Bytes {
    i.delivered + i.unprotected + i.decrypted
  }

  lemma ReadingStep(s: State, step: Step)
    requires Enabled(s, step) && Reading(step)
    ensures Readable(Next(s, step).i) == Readable(s.i)
    ensures |Next(s, step).i.delivered| == |s.i.delivered| + if step.Consumed? then step.n else 0
  {
    match step
    case Consumed(n) => Shift([], s.i.delivered, s.i.unprotected, n);
    case AfterConsumed => Shift(s.i.delivered, s.i.unprotected, s.i.decrypted, Room(s.cap, s.i.unprotected, s.i.decrypted));
    case Schedule =>
  }

  /** What the handler gets by reading: the next bytes of the decrypted input, as many as it consumed. */
  lemma {:induction false} ReadingDelivers(s: State, steps: seq<Step>)
    requires Runs(s, steps) && AllReading(steps)
    ensures Readable(After(s, steps).i) == Readable(s.i)
    ensures |After(s, steps).i.delivered| == |s.i.delivered| + Sum(Taken(steps))
    decreases |steps|
  {
    hide Enabled, Next, Readable;
    if steps != [] {
      assert Reading(steps[0]);
      ReadingStep(s, steps[0]);
      ReadingDelivers(Next(s, steps[0]), steps[1..]);
      if steps[0].Consumed? {
        assert Taken(steps)[1..] == Taken(steps[1..]);
      } else {
        assert [] + Taken(steps[1..]) == Taken(steps[1..]);
      }
    }
  }

  /** What the handler does with the input it is offered. */
  datatype Answer = Answer(consume: nat, result: Result)

  datatype Result = OK | MORE | AGAIN | DESTROYED

  /** The handler consumes what it says, or all there is; there always is something. */
  ghost predicate Consumption(answers: seq<Answer>, taken: seq<nat>) {
    |taken| <= |answers|
    && forall k :: 0 <= k < |taken| ==> taken[k] <= answers[k].consume && (answers[k].consume > 0 ==> taken[k] > 0)
  }

  ghost predicate AskedForMore(answers: seq<Answer>, n: nat) {
    n <= |answers| && forall k :: 0 <= k < n ==> answers[k].result.MORE? || answers[k].result.AGAIN?
  }

  lemma ConsumptionMore(answers: seq<Answer>, taken: seq<nat>, n: nat)
    requires Consumption(answers, taken) && |taken| < |answers|
    requires n <= answers[|taken|].consume && (answers[|taken|].consume > 0 ==> n > 0)
    ensures Consumption(answers, taken + [n])
  {
  }

  lemma AskedOnceMore(answers: seq<Answer>, n: nat)
    requires AskedForMore(answers, n) && n < |answers|
    ensures answers[n].result.MORE? || answers[n].result.AGAIN? ==> AskedForMore(answers, n + 1)
  {
  }

  lemma AskedBefore(answers: seq<Answer>, n: nat)
    requires AskedForMore(answers, n) && n > 0
    ensures AskedForMore(answers, n - 1) && (answers[n - 1].result.MORE? || answers[n - 1].result.AGAIN?)
  {
  }

  lemma NothingAsked(answers: seq<Answer>)
    ensures Consumption(answers, []) && AskedForMore(answers, 0)
  {
  }

  class ThreadSocketFilter {
    const capacity: nat

    var socketInput: Bytes
    var encryptedInput: Bytes
    var decryptedInput: Bytes
    var unprotectedInput: Bytes
    var plainOutput: Bytes
    var encryptedOutput: Bytes

    var job: Job
    var rerun: bool
    var busy: bool
    var donePending: bool

    var connected: bool
    var postponedRemaining: bool
    var postponedEnd: bool
    var wantWrite: bool

    ghost var received: Bytes
    ghost var delivered: Bytes
    ghost var accepted: Bytes
    ghost var sent: Bytes
    ghost var remainingSeen: bool
    ghost var endSeen: bool
    ghost var remainingTold: bool
    ghost var endTold: bool

    ghost function In(): Inbound
      reads this`received, this`socketInput, this`encryptedInput, this`decryptedInput, this`unprotectedInput, this`delivered
    {
      Inbound(received, socketInput, encryptedInput, decryptedInput, unprotectedInput, delivered)
    }

    ghost function Out(): Outbound
      reads this`accepted, this`plainOutput, this`encryptedOutput, this`sent
    {
      Outbound(accepted, plainOutput, encryptedOutput, sent)
    }

    ghost function Work(): Worker
      reads this`job, this`rerun, this`busy, this`donePending
    {
      Worker(job, rerun, busy, donePending)
    }

    ghost function Close(): Closing
      reads this`connected, this`remainingSeen, this`endSeen, this`postponedRemaining, this`postponedEnd, this`remainingTold, this`endTold
    {
      Closing(connected, remainingSeen, endSeen, postponedRemaining, postponedEnd, remainingTold, endTold)
    }

    ghost function At(place: Place): State
      reads this
    {
      State(capacity, In(), Out(), Work(), Close(), place, wantWrite)
    }

    /** The state between two calls. */
    ghost function Value(): State
      reads this
    {
      At(Free)
    }

    /** The constructor and Init(). */
    constructor (capacity: nat)
      ensures this.capacity == capacity && Value() == Start(capacity)
    {
      this.capacity := capacity;
      socketInput, encryptedInput, decryptedInput, unprotectedInput := [], [], [], [];
      plainOutput, encryptedOutput := [], [];
      job, rerun, busy, donePending := Waiting, false, false, false;
      connected, postponedRemaining, postponedEnd, wantWrite := true, false, false, false;
      received, delivered, accepted, sent := [], [], [], [];
      remainingSeen, endSeen, remainingTold, endTold := false, false, false, false;
    }

    /** Add the job to the thread queue. */
    method Add(ghost next: Place)
      modifies this`job, this`rerun
      ensures At(next) == Next(old(At(MustSchedule(next))), Step.Schedule)
    {
      hide In, Out, Close;
      match job {
        case Initial => job := Waiting;
        case Waiting =>
        case _ => rerun := true;
      }
    }

    method OnData()
      requires socketInput != []
      modifies this`socketInput, this`encryptedInput, this`job, this`rerun
      ensures Took(old(Value()), if |old(encryptedInput)| >= capacity then [Step.OnData] else [Step.OnData, Step.Schedule], Value())
    {
      hide Took, Runs, After;
      ghost var s := Value();
      if |encryptedInput| >= capacity {
        TookOne(s, Step.OnData);
        return;
      }
      var n := Room(capacity, encryptedInput, socketInput);
      encryptedInput, socketInput := encryptedInput + socketInput[..n], socketInput[n..];
      Add(Free);
      TookTwo(s, Step.OnData, Step.Schedule);
    }

    /** The first part of Write(): the critical section, and the flag. */
    method WritePlainOutput(src: Bytes) returns (n: nat)
      requires connected
      modifies this`plainOutput, this`accepted, this`wantWrite
      ensures n == Room(capacity, old(plainOutput), src)
      ensures At(if n == 0 then Free else MustSchedule(Free)) == Next(old(Value()), Step.Write(src))
    {
      hide In, Work, Close;
      n := Room(capacity, plainOutput, src);
      plainOutput, accepted := plainOutput + src[..n], accepted + src[..n];
      if n < |src| {
        wantWrite := true;
      }
    }

    method Write(src: Bytes) returns (n: nat)
      requires connected
      modifies this`plainOutput, this`accepted, this`wantWrite, this`job, this`rerun
      ensures n == Room(capacity, old(plainOutput), src)
      ensures Took(old(Value()), if n == 0 then [Step.Write(src)] else [Step.Write(src), Step.Schedule], Value())
    {
      hide Took, Runs, After;
      ghost var s := Value();
      assert Enabled(s, Step.Write(src));
      n := WritePlainOutput(src);
      ghost var s1 := At(if n == 0 then Free else MustSchedule(Free));
      assert n > 0 ==> Enabled(s1, Step.Schedule);
      hide Next, Enabled, Room;
      if n == 0 {
        TookOne(s, Step.Write(src));
      } else {
        Add(Free);
        TookTwo(s, Step.Write(src), Step.Schedule);
      }
    }

    method Consumed(n: nat, ghost place: Place)
      requires n <= |unprotectedInput| && HandlerMay(place)
      modifies this`unprotectedInput, this`delivered
      ensures Took(old(At(place)), [Step.Consumed(n)], At(place))
    {
      hide Took, Runs, After;
      ghost var s := At(place);
      delivered, unprotectedInput := delivered + unprotectedInput[..n], unprotectedInput[n..];
      TookOne(s, Step.Consumed(n));
    }

    /** Returns true if the filter may have stalled because the buffer was full. */
    method MoveDecryptedInput(ghost place: Place) returns (wasFull: bool)
      requires HandlerMay(place) && |unprotectedInput| < capacity
      modifies this`unprotectedInput, this`decryptedInput
      ensures At(if wasFull then MustSchedule(place) else place) == Next(old(At(place)), Step.AfterConsumed)
      ensures |unprotectedInput| > |old(unprotectedInput)| || decryptedInput == []
    {
      hide Out, Work, Close;
      wasFull := |decryptedInput| >= capacity;
      var n := Room(capacity, unprotectedInput, decryptedInput);
      unprotectedInput, decryptedInput := unprotectedInput + decryptedInput[..n], decryptedInput[n..];
    }

    method AfterConsumed(ghost place: Place) returns (ghost steps: seq<Step>)
      requires HandlerMay(place)
      modifies this`unprotectedInput, this`decryptedInput, this`job, this`rerun
      ensures steps == [Step.AfterConsumed] || steps == [Step.AfterConsumed, Step.Schedule]
      ensures Took(old(At(place)), steps, At(place))
      ensures |unprotectedInput| > |old(unprotectedInput)| || |unprotectedInput| >= capacity || decryptedInput == []
    {
      hide Took, Runs, After;
      ghost var s := At(place);
      assert Enabled(s, Step.AfterConsumed);
      assert |unprotectedInput| >= capacity ==> Next(s, Step.AfterConsumed) == s;
      steps := [Step.AfterConsumed];
      if |unprotectedInput| < capacity {
        var wasFull := MoveDecryptedInput(place);
        if wasFull {
          assert Enabled(At(MustSchedule(place)), Step.Schedule);
          hide Next, Enabled;
          Add(place);
          TookTwo(s, Step.AfterConsumed, Step.Schedule);
          steps := [Step.AfterConsumed, Step.Schedule];
          return;
        }
      }
      hide Next;
      TookOne(s, Step.AfterConsumed);
    }

    /**
     The handler was asked `used` times, and for a reason no more often: it does not want any more, there is
     nothing to offer, it has run out of answers, or the filter is gone.
     */
    ghost predicate Submitted(answers: seq<Answer>, used: nat, steps: seq<Step>, alive: bool)
      reads this`unprotectedInput, this`decryptedInput
    {
      && AllReading(steps) && used == |Taken(steps)| && Consumption(answers, Taken(steps))
      && (used > 0 ==> AskedForMore(answers, used - 1))
      && (alive && used < |answers| ==>
            unprotectedInput == [] || (used > 0 && match answers[used - 1].result
                                                   case OK => true
                                                   case MORE => decryptedInput == []
                                                   case _ => false))
      && (alive && used > 0 ==> !answers[used - 1].result.DESTROYED?)
      && (!alive ==> used > 0 && match answers[used - 1].result
                                 case DESTROYED => true
                                 case MORE => |unprotectedInput| >= capacity
                                 case _ => false)
    }

    /** Offer the input to the handler until it does not want any more; false if it has destroyed the filter. */
    method SubmitDecryptedInput(answers: seq<Answer>, ghost place: Place)
      returns (alive: bool, ghost used: nat, ghost steps: seq<Step>)
      requires HandlerMay(place) && capacity > 0
      modifies this`unprotectedInput, this`decryptedInput, this`delivered, this`job, this`rerun
      ensures Took(old(At(place)), steps, At(place))
      ensures Submitted(answers, used, steps, alive)
      ensures RefillsFirst(old(unprotectedInput), steps)
    {
      hide Took, Runs, After, Next, Enabled, Taken, At, AllReading, Consumption, AskedForMore;
      ghost var s := At(place);
      steps, used := [], 0;
      TookNone(s);
      TakenNone();
      ReadingNone();
      NothingAsked(answers);
      if unprotectedInput == [] {
        steps := Refill(place, s, steps);
      }
      ghost var first := steps;
      var k := 0;
      while k < |answers|
        invariant k == used == |Taken(steps)| <= |answers|
        invariant Took(s, steps, At(place)) && AllReading(steps)
        invariant Consumption(answers, Taken(steps)) && AskedForMore(answers, used)
        invariant first <= steps
      {
        if used > 0 {
          AskedBefore(answers, used);
        }
        if unprotectedInput == [] {
          return true, used, steps;
        }
        var answer := answers[k];
        ConsumptionMore(answers, Taken(steps), Min(answer.consume, |unprotectedInput|));
        AskedOnceMore(answers, used);
        steps := Offer(Min(answer.consume, |unprotectedInput|), place, s, steps);
        k, used := k + 1, used + 1;
        if answer.result == DESTROYED || (answer.result == MORE && |unprotectedInput| >= capacity) {
          return false, used, steps;
        }
        var available := |unprotectedInput|;
        steps := Refill(place, s, steps);
        if answer.result == OK || (answer.result == MORE && |unprotectedInput| <= available) {
          return true, used, steps;
        }
      }
      if used > 0 {
        AskedBefore(answers, used);
      }
      alive := true;
    }

    /** The handler's callback. */
    method Offer(n: nat, ghost place: Place, ghost s: State, ghost before: seq<Step>) returns (ghost steps: seq<Step>)
      requires n <= |unprotectedInput| && HandlerMay(place) && Took(s, before, At(place)) && AllReading(before)
      modifies this`unprotectedInput, this`delivered
      ensures Took(s, steps, At(place)) && AllReading(steps) && before <= steps
      ensures Taken(steps) == Taken(before) + [n]
    {
      hide Took, Runs, After, Next, Enabled, Taken, At;
      ghost var s1 := At(place);
      Consumed(n, place);
      TookMore(s, before, s1, [Step.Consumed(n)], At(place));
      TakenConcat(before, [Step.Consumed(n)]);
      TakenOne(Step.Consumed(n));
      steps := before + [Step.Consumed(n)];
    }

    /** AfterConsumed(), as a part of a longer run; it moves something if there is anything to move. */
    method Refill(ghost place: Place, ghost s: State, ghost before: seq<Step>) returns (ghost steps: seq<Step>)
      requires HandlerMay(place) && Took(s, before, At(place)) && AllReading(before)
      modifies this`unprotectedInput, this`decryptedInput, this`job, this`rerun
      ensures Took(s, steps, At(place)) && AllReading(steps) && before <= steps
      ensures Taken(steps) == Taken(before)
      ensures |steps| > |before| && steps[|before|] == Step.AfterConsumed
      ensures |unprotectedInput| > |old(unprotectedInput)| || |unprotectedInput| >= capacity || decryptedInput == []
    {
      hide Took, Runs, After, Next, Enabled, Taken, At;
      ghost var s1 := At(place);
      ghost var more := AfterConsumed(place);
      TookMore(s, before, s1, more, At(place));
      TakenConcat(before, more);
      TakenOne(Step.AfterConsumed);
      TakenOne(Step.Schedule);
      if |more| == 2 {
        assert more == [Step.AfterConsumed] + [Step.Schedule];
        TakenConcat([Step.AfterConsumed], [Step.Schedule]);
      }
      assert Taken(before) + [] == Taken(before);
      steps := before + more;
    }

    /** InternalWrite(), when the socket accepts `n` bytes of the copy. */
    method InternalWrite(n: nat) returns (ghost steps: seq<Step>)
      requires connected && n <= |encryptedOutput|
      modifies this`encryptedOutput, this`sent, this`job, this`rerun
      ensures Took(old(Value()), steps, Value())
      ensures steps == if old(encryptedOutput) == [] then [] else
                       if n == 0 then [Step.CopyOutput, Step.WriteSocket(n)] else
                       [Step.CopyOutput, Step.WriteSocket(n), Step.ConsumeOutput]
                       + if |old(encryptedOutput)| >= capacity then [Step.Schedule] else []
    {
      ghost var s := Value();
      if encryptedOutput == [] {
        TookNone(s);
        steps := [];
        return;
      }
      var copy := encryptedOutput;
      TookTwo(s, Step.CopyOutput, Step.WriteSocket(n));
      steps := [Step.CopyOutput, Step.WriteSocket(n)];
      if n > 0 {
        sent := sent + copy[..n];
        ghost var s2 := At(Sent(n));
        steps := ConsumeOutput(n, s, steps);
      }
    }

    method ConsumeOutput(n: nat, ghost s: State, ghost before: seq<Step>) returns (ghost steps: seq<Step>)
      requires 0 < n <= |encryptedOutput| && Took(s, before, At(Sent(n)))
      modifies this`encryptedOutput, this`job, this`rerun
      ensures steps == before + [Step.ConsumeOutput] + if |old(encryptedOutput)| >= capacity then [Step.Schedule] else []
      ensures Took(s, steps, Value())
    {
      hide Took, Runs, After;
      ghost var s2 := At(Sent(n));
      var add := |encryptedOutput| >= capacity;
      encryptedOutput := encryptedOutput[n..];
      if add {
        Add(Free);
        TookTwo(s2, Step.ConsumeOutput, Step.Schedule);
        TookMore(s, before, s2, [Step.ConsumeOutput, Step.Schedule], Value());
        steps := before + [Step.ConsumeOutput, Step.Schedule];
        assert steps == before + [Step.ConsumeOutput] + [Step.Schedule];
      } else {
        TookOne(s2, Step.ConsumeOutput);
        TookMore(s, before, s2, [Step.ConsumeOutput], Value());
        steps := before + [Step.ConsumeOutput];
        assert steps == before + [Step.ConsumeOutput] + [];
      }
    }

    /** The worker thread, with the identity filter. */
    method Run(ghost place: Place)
      requires job.Popped?
      modifies this`encryptedInput, this`decryptedInput, this`plainOutput, this`encryptedOutput, this`job, this`busy, this`donePending
      ensures Took(old(At(place)), [Step.StartRun, Step.RunFilter, Step.FinishRun], At(place))
    {
      hide In, Out, Close;
      hide Took, Runs, After;
      ghost var s := At(place);
      job, busy := Started, true;
      ghost var s1 := At(place);
      assert Enabled(s, Step.StartRun) && s1 == Next(s, Step.StartRun) && Enabled(s1, Step.RunFilter) && Next(s1, Step.RunFilter) == DoRunFilter(s1);
      Filter(place);
      ghost var s2 := At(place);
      assert Enabled(s2, Step.FinishRun);
      FinishRun(place);
      ghost var s3 := At(place);
      hide *;
      TookTwo(s, Step.StartRun, Step.RunFilter);
      TookOne(s2, Step.FinishRun);
      TookMore(s, [Step.StartRun, Step.RunFilter], s2, [Step.FinishRun], s3);
      assert [Step.StartRun, Step.RunFilter] + [Step.FinishRun] == [Step.StartRun, Step.RunFilter, Step.FinishRun];
    }

    method FinishRun(ghost place: Place)
      requires job.Moved?
      modifies this`job, this`busy, this`donePending
      ensures At(place) == Next(old(At(place)), Step.FinishRun)
    {
      hide In, Out, Close;
      job, busy, donePending := Finished, false, true;
    }

    method Filter(ghost place: Place)
      requires job.Started?
      modifies this`encryptedInput, this`decryptedInput, this`plainOutput, this`encryptedOutput, this`job
      ensures job.Moved? && At(place) == DoRunFilter(old(At(place)))
    {
      hide In, Out, Close, Decrypt, Encrypt, Room;
      DecryptAll();
      EncryptAll();
      job := Moved;
    }

    method DecryptAll()
      modifies this`encryptedInput, this`decryptedInput
      ensures In() == Decrypt(old(In()), Room(capacity, old(In()).decrypted, old(In()).encrypted))
    {
      var n := Room(capacity, decryptedInput, encryptedInput);
      decryptedInput, encryptedInput := decryptedInput + encryptedInput[..n], encryptedInput[n..];
    }

    method EncryptAll()
      modifies this`plainOutput, this`encryptedOutput
      ensures Out() == Encrypt(old(Out()), Room(capacity, old(Out()).encrypted, old(Out()).plain))
    {
      var n := Room(capacity, encryptedOutput, plainOutput);
      encryptedOutput, plainOutput := encryptedOutput + plainOutput[..n], plainOutput[n..];
    }

    /** The first critical section of Done(). */
    method DonePostponed() returns (closed: bool, remaining: bool)
      requires job.Finished? && !rerun
      modifies this`job, this`donePending, this`endTold
      ensures At(if remaining then DoneRemaining else Free) == DoWakeup(old(Value()))
      ensures closed <==> old(postponedEnd && encryptedInput == [])
      ensures remaining <==> closed && old(postponedRemaining)
    {
      hide Out;
      job, donePending := Initial, false;
      closed := postponedEnd && encryptedInput == [];
      remaining := closed && postponedRemaining;
      if closed && !remaining {
        TellEnd(Free);
      }
    }

    /**
     Done(), with the handler's answers to the input it is offered; false if it has destroyed the filter.
     `sub` are the steps of the handler.
     */
    method Done(answers: seq<Answer>)
      returns (alive: bool, ghost used: nat, ghost sub: seq<Step>, ghost steps: seq<Step>)
      requires job.Finished? && !rerun && capacity > 0
      modifies this
      ensures old(postponedEnd && encryptedInput == [] && postponedRemaining) ==>
                && steps == [Step.Wakeup] + sub + (if alive then [Step.TellRemaining, Step.TellEnd] else [])
                && Took(old(Value()), steps, At(if alive then Free else DoneRemaining))
                && (if old(decryptedInput == [] && unprotectedInput == []) then alive && sub == []
                    else Submitted(answers, used, sub, alive) && RefillsFirst(old(unprotectedInput), sub))
      ensures old(postponedEnd && encryptedInput == [] && !postponedRemaining) ==>
                alive && steps == [Step.Wakeup] && Took(old(Value()), steps, Value())
      ensures old(!postponedEnd || encryptedInput != []) ==>
                && steps == [Step.Wakeup] + sub && Took(old(Value()), steps, Value())
                && Submitted(answers, used, sub, alive) && RefillsFirst(old(unprotectedInput), sub)
    {
      hide Took, Runs, After, In, Out, Close, Submitted;
      ghost var s := Value();
      assert Enabled(s, Step.Wakeup) && Next(s, Step.Wakeup) == DoWakeup(s);
      hide Next, Enabled, DoWakeup;
      TookOne(s, Step.Wakeup);
      steps, sub, used := [Step.Wakeup], [], 0;
      alive := true;
      var closed, remaining := DonePostponed();
      if remaining {
        alive, used, sub, steps := DoneClosed(answers, s, steps);
      } else if !closed {
        ghost var s1 := Value();
        alive, used, sub := SubmitDecryptedInput(answers, Free);
        TookMore(s, steps, s1, sub, Value());
        steps := steps + sub;
      }
    }

    /** The part of Done() that delivers both postponed events. */
    method DoneClosed(answers: seq<Answer>, ghost s: State, ghost before: seq<Step>)
      returns (alive: bool, ghost used: nat, ghost sub: seq<Step>, ghost steps: seq<Step>)
      requires Took(s, before, At(DoneRemaining)) && capacity > 0
      modifies this
      ensures steps == before + sub + if alive then [Step.TellRemaining, Step.TellEnd] else []
      ensures Took(s, steps, At(if alive then Free else DoneRemaining))
      ensures if old(decryptedInput == [] && unprotectedInput == []) then alive && sub == []
              else Submitted(answers, used, sub, alive) && RefillsFirst(old(unprotectedInput), sub)
    {
      hide Took, Runs, After, Next, Submitted, Out, Work, Close;
      alive, used, sub, steps := true, 0, [], before;
      assert before + [] == before;
      if decryptedInput != [] || unprotectedInput != [] {
        ghost var s1 := At(DoneRemaining);
        alive, used, sub := SubmitDecryptedInput(answers, DoneRemaining);
        TookMore(s, before, s1, sub, At(DoneRemaining));
        steps := before + sub;
        if !alive {
          assert steps + [] == steps;
          return;
        }
      }
      ghost var s2 := At(DoneRemaining);
      TellRemaining();
      ghost var s3 := At(DoneEnd);
      assert Enabled(s2, Step.TellRemaining) && Enabled(s3, Step.TellEnd);
      hide Enabled;
      TellEnd(DoneEnd);
      TookTwo(s2, Step.TellRemaining, Step.TellEnd);
      TookMore(s, steps, s2, [Step.TellRemaining, Step.TellEnd], Value());
      steps := steps + [Step.TellRemaining, Step.TellEnd];
    }

    method TellRemaining()
      modifies this`postponedRemaining, this`remainingTold
      ensures At(DoneEnd) == Next(old(At(DoneRemaining)), Step.TellRemaining)
    {
      hide In, Out, Work;
      postponedRemaining, remainingTold := false, true;
    }

    method TellEnd(ghost place: Place)
      modifies this`endTold
      ensures Value() == DoTellEnd(old(At(place)))
      ensures place.DoneEnd? ==> Value() == Next(old(At(place)), Step.TellEnd)
    {
      hide Out, Work;
      if decryptedInput == [] && unprotectedInput == [] {
        endTold := true;
      }
    }

    method OnClosed()
      requires connected
      modifies this`connected, this`wantWrite
      ensures Took(old(Value()), [Step.OnClosed], Value())
    {
      hide In, Out, Work;
      hide Took, Runs, After;
      ghost var s := Value();
      connected, wantWrite := false, false;
      TookOne(s, Step.OnClosed);
    }

    method OnRemaining(remaining: nat)
      requires !connected && !remainingSeen && remaining == |socketInput|
      modifies this`postponedRemaining, this`remainingSeen, this`remainingTold
      ensures Took(old(Value()), [Step.OnRemaining], Value())
    {
      hide Out;
      hide Took, Runs, After;
      ghost var s := Value();
      assert Enabled(s, Step.OnRemaining) && Next(s, Step.OnRemaining) == DoOnRemaining(s);
      hide Next, Enabled;
      remainingSeen := true;
      if remaining == 0 && !busy && !donePending && encryptedInput == [] {
        remainingTold := true;
      } else {
        postponedRemaining := true;
      }
      TookOne(s, Step.OnRemaining);
    }

    /** The first part of OnEnd(): commit a postponed "remaining" if that is possible now. */
    method TryRemaining() returns (ok: bool)
      requires remainingSeen && !endSeen && socketInput == []
      modifies this`postponedRemaining, this`postponedEnd, this`endSeen, this`remainingTold
      ensures At(if ok then EndCheck else Free) == DoOnEnd(old(Value()))
      ensures ok <==> old(!postponedRemaining || (!busy && !donePending && encryptedInput == []))
    {
      hide Out;
      endSeen := true;
      ok := true;
      if postponedRemaining {
        if !busy && !donePending && encryptedInput == [] {
          postponedRemaining, remainingTold := false, true;
        } else {
          postponedEnd := true;
          ok := false;
        }
      }
    }

    method CheckEnd()
      modifies this`postponedEnd, this`endTold
      ensures Value() == Next(old(At(EndCheck)), Step.CheckEnd)
    {
      hide Out, Work;
      if decryptedInput == [] && unprotectedInput == [] {
        endTold := true;
      } else {
        postponedEnd := true;
      }
    }

    method OnEnd() returns (ghost steps: seq<Step>)
      requires remainingSeen && !endSeen && socketInput == []
      modifies this`postponedRemaining, this`postponedEnd, this`endSeen, this`remainingTold, this`endTold
      ensures Took(old(Value()), steps, Value())
      ensures steps == if old(!postponedRemaining || (!busy && !donePending && encryptedInput == []))
                       then [Step.OnEnd, Step.CheckEnd] else [Step.OnEnd]
    {
      hide Out, Work;
      hide Took, Runs, After;
      ghost var s := Value();
      assert Enabled(s, Step.OnEnd) && Next(s, Step.OnEnd) == DoOnEnd(s);
      var ok := TryRemaining();
      assert ok ==> Enabled(At(EndCheck), Step.CheckEnd);
      hide Next, Enabled;
      if ok {
        CheckEnd();
        TookTwo(s, Step.OnEnd, Step.CheckEnd);
        steps := [Step.OnEnd, Step.CheckEnd];
      } else {
        TookOne(s, Step.OnEnd);
        steps := [Step.OnEnd];
      }
    }
  }
}
