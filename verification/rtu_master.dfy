/** ModbusRtuMaster as a step machine: one step per handler (modbus_rtu_master.cpp). */
module RtuMaster {
  import opened Messages
  import opened Pipeline
  import opened PendingIo

  datatype State = State(timeout: int, pipe: Pipe, io: Io)

  datatype Event =
    | Receive(msg: Msg, clock: Clock)
    | WriteDone(write: nat, ec: Ec, readBuffer: nat)
    | WaitDone(wait: nat, ec: Ec, cancelled: bool)
    | ReadDone(read: nat, exchangeAlive: bool, ec: Ec, reply: Reply, clock: Clock)

  function Init(timeout: int): State {
    State(timeout, EMPTY_PIPE, NO_IO)
  }

  /** A completion belongs to a pending operation, and reports an abort only if something cancelled the operation. */
  predicate Enabled(s: State, e: Event) {
    match e
    case Receive(_, _) => true
    case WriteDone(i, ec, _) => i < |s.io.writing| && (ec.Aborted? ==> s.io.writing[i].cancelled)
    case WaitDone(g, ec, _) => g in s.io.waits && (ec.Aborted? ==> s.io.waits[g])
    case ReadDone(i, _, ec, _, _) => i < |s.io.reading| && (ec.Aborted? ==> s.io.reading[i].cancelled)
  }

  /** QueueProcessUnsafe, with StartMessageTaskUnsafe. */
  function QueueProcess(s: State, clock: Clock): State {
    var p := Advance(s.pipe, s.timeout, clock);
    if s.pipe.current.None? && p.current.Some? then
      s.(pipe := p, io := StartWrite(s.io, p.current.value.msg.buffer))
    else s.(pipe := p)
  }

  function Step(s: State, e: Event): State
    requires Enabled(s, e)
  {
    match e
    case Receive(m, clock) => QueueProcess(s.(pipe := Enqueue(s.pipe, m)), clock)
    case WriteDone(i, ec, readBuffer) =>
      var io := EndWrite(s.io, i);
      if ec.Ok? then s.(io := StartWaitAndRead(io, readBuffer)) else s.(io := io, pipe := Free(s.pipe))
    case WaitDone(g, ec, cancelled) => s.(io := EndWait(s.io, g, ec, cancelled))
    case ReadDone(i, alive, ec, reply, clock) =>
      var io := EndRead(s.io, i);
      if !alive then s.(io := io)
      else if !ec.Ok? then s.(io := CancelTimer(io), pipe := Free(s.pipe))
      else
        QueueProcess(s.(io := CancelTimer(io), pipe := Respond(s.pipe, s.io.reading[i].buffer, reply, reply.checkOk)),
                     clock)
  }

  ghost predicate IsRun(states: seq<State>, events: seq<Event>) {
    && |states| == |events| + 1
    && (exists timeout :: states[0] == Init(timeout))
    && (forall k :: 0 <= k < |events| ==> Follows(states, events, k))
  }

  /** The k-th event of a run is possible in the state before it and leads to the state after it. */
  ghost predicate Follows(states: seq<State>, events: seq<Event>, k: nat)
    requires |states| == |events| + 1 && k < |events|
  {
    Enabled(states[k], events[k]) && states[k + 1] == Step(states[k], events[k])
  }

  /** At most one write or read is pending, only while the slot is occupied, and a write is of the slot's own buffer. */
  ghost predicate SingleOutstanding(s: State) {
    && Sound(s.io)
    && (Count(s.io) == 1 ==> s.pipe.current.Some?)
    && (s.io.writing != [] ==> s.io.writing[0].buffer == s.pipe.current.value.msg.buffer)
  }

  ghost predicate Inv(s: State) {
    && Conserved(s.pipe, s.timeout)
    && SingleOutstanding(s)
  }

  /** The slot is occupied and nothing is pending that could ever free it. */
  predicate Trapped(s: State) {
    s.pipe.current.Some? && s.io.writing == [] && s.io.reading == []
  }

  /** The two ways a read handler returns early without freeing the slot. */
  predicate LeavesSlot(e: Event) {
    e.ReadDone? && (!e.exchangeAlive || (e.ec.Ok? && !e.reply.sizeOk))
  }

  lemma QueueProcessKeepsInv(s: State, clock: Clock)
    requires Inv(s) && (s.pipe.current.None? ==> Count(s.io) == 0)
    ensures var t := QueueProcess(s, clock);
            && Inv(t)
            && (t.pipe.queue != [] ==> t.pipe.current.Some?)
            && (s.pipe.current.Some? ==> t == s)
            && (s.pipe.current.None? && t.pipe.current.Some? ==> Count(t.io) == 1)
  {
    AdvanceConserves(s.pipe, s.timeout, clock);
    AdvanceShape(s.pipe, s.timeout, clock);
    var p := Advance(s.pipe, s.timeout, clock);
    if s.pipe.current.None? && p.current.Some? {
      StartWriteSound(s.io, p.current.value.msg.buffer);
    }
  }

  lemma ReceiveKeepsInv(s: State, e: Event)
    requires Inv(s) && Enabled(s, e) && e.Receive?
    ensures Inv(Step(s, e)) && (Trapped(Step(s, e)) <==> Trapped(s))
  {
    EnqueueConserves(s.pipe, s.timeout, e.msg);
    QueueProcessKeepsInv(s.(pipe := Enqueue(s.pipe, e.msg)), e.clock);
  }

  lemma WriteDoneKeepsInv(s: State, e: Event)
    requires Inv(s) && Enabled(s, e) && e.WriteDone?
    ensures Inv(Step(s, e)) && !Trapped(s) && !Trapped(Step(s, e))
  {
    FreeConserves(s.pipe, s.timeout);
    EndWriteSound(s.io, e.write);
    StartWaitAndReadSound(EndWrite(s.io, e.write), e.readBuffer);
  }

  lemma WaitDoneKeepsInv(s: State, e: Event)
    requires Inv(s) && Enabled(s, e) && e.WaitDone?
    ensures Inv(Step(s, e)) && (Trapped(Step(s, e)) <==> Trapped(s))
  {
    EndWaitSound(s.io, e.wait, e.ec, e.cancelled);
  }

  lemma ReadDoneKeepsInv(s: State, e: Event)
    requires Inv(s) && Enabled(s, e) && e.ReadDone?
    ensures Inv(Step(s, e)) && !Trapped(s) && (Trapped(Step(s, e)) <==> LeavesSlot(e))
  {
    hide Conserved, QueueProcess;
    FreeConserves(s.pipe, s.timeout);
    EndReadSound(s.io, e.read);
    RespondConserves(s.pipe, s.timeout, s.io.reading[e.read].buffer, e.reply, e.reply.checkOk);
    QueueProcessKeepsInv(
      s.(io := CancelTimer(EndRead(s.io, e.read)),
         pipe := Respond(s.pipe, s.io.reading[e.read].buffer, e.reply, e.reply.checkOk)), e.clock);
  }

  lemma StepKeepsInv(s: State, e: Event)
    requires Inv(s) && Enabled(s, e)
    ensures Inv(Step(s, e))
    ensures Trapped(Step(s, e)) <==> Trapped(s) || LeavesSlot(e)
  {
    match e
    case Receive(_, _) => ReceiveKeepsInv(s, e);
    case WriteDone(_, _, _) => WriteDoneKeepsInv(s, e);
    case WaitDone(_, _, _) => WaitDoneKeepsInv(s, e);
    case ReadDone(_, _, _, _, _) => ReadDoneKeepsInv(s, e);
  }

  /** Every state of every run satisfies the invariant. */
  lemma {:induction false} RunInv(states: seq<State>, events: seq<Event>, n: nat)
    requires IsRun(states, events) && n < |states|
    ensures Inv(states[n])
  {
    hide Step;
    if n > 0 {
      RunInv(states, events, n - 1);
      assert Follows(states, events, n - 1);
      StepKeepsInv(states[n - 1], events[n - 1]);
    }
  }

  /** Appending an enabled step to a run gives a run. */
  lemma RunExtends(states: seq<State>, events: seq<Event>, e: Event)
    requires IsRun(states, events) && Enabled(states[|events|], e)
    ensures IsRun(states + [Step(states[|events|], e)], events + [e])
  {
    hide Step, Enabled;
    var states', events' := states + [Step(states[|events|], e)], events + [e];
    assert states'[0] == states[0];
    forall k | 0 <= k < |events'| ensures Follows(states', events', k) {
      if k < |events| {
        assert Follows(states, events, k);
      }
    }
  }
}
