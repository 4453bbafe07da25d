/** ModbusTcpClient as a step machine: one step per handler (modbus_tcp_client.cpp). */
module TcpClient {
  import opened Messages
  import opened Pipeline
  import opened PendingIo

  datatype Link = Idle | WaitConnect | Connected | MessageProcess

  /** `connects` counts the pending connects: connecting does not leave Idle, so there may be several. */
  datatype State = State(timeout: int, link: Link, pipe: Pipe, io: Io, connects: nat)

  datatype Event =
    | Receive(msg: Msg, clock: Clock)
    | ConnectDone(ec: Ec, clock: Clock)
    | SendDone(write: nat, ec: Ec, readBuffer: nat)
    | WaitDone(wait: nat, ec: Ec, cancelled: bool)
    | ReceiveDone(read: nat, exchangeAlive: bool, ec: Ec, reply: Reply, clock: Clock)

  function Init(timeout: int): State {
    State(timeout, Idle, EMPTY_PIPE, NO_IO, 0)
  }

  predicate Enabled(s: State, e: Event) {
    match e
    case Receive(_, _) => true
    case ConnectDone(_, _) => s.connects > 0
    case SendDone(i, ec, _) => i < |s.io.writing| && (ec.Aborted? ==> s.io.writing[i].cancelled)
    case WaitDone(g, ec, _) => g in s.io.waits && (ec.Aborted? ==> s.io.waits[g])
    case ReceiveDone(i, _, ec, _, _) => i < |s.io.reading| && (ec.Aborted? ==> s.io.reading[i].cancelled)
  }

  /** StartMessageTaskUnsafe */
  function StartMessage(s: State, clock: Clock): State {
    var p := Advance(s.pipe, s.timeout, clock);
    if s.pipe.current.None? && p.current.Some? then
      s.(pipe := p, link := MessageProcess, io := StartWrite(s.io, p.current.value.msg.buffer))
    else s.(pipe := p)
  }

  /** QueueProcessUnsafe */
  function QueueProcess(s: State, clock: Clock): State {
    if s.pipe.queue == [] then s
    else
      match s.link
      case Idle => s.(connects := s.connects + 1)
      case WaitConnect => s
      case Connected => StartMessage(s, clock)
      case MessageProcess => s
  }

  /** A failed send or receive: the slot is freed; the connection is kept if the operation was only cancelled, and closed
      otherwise. */
  function Broken(s: State, ec: Ec): State {
    if ec.Aborted? then s.(pipe := Free(s.pipe), link := Connected)
    else s.(pipe := Free(s.pipe), link := Idle, io := CancelPort(s.io))
  }

  /** The verdict of the frame checks of MakeResponse. */
  predicate Accepts(s: State, reply: Reply) {
    reply.checkOk && s.pipe.current.Some? && reply.transactionId == s.pipe.current.value.id
  }

  function Step(s: State, e: Event): State
    requires Enabled(s, e)
  {
    match e
    case Receive(m, clock) => QueueProcess(s.(pipe := Enqueue(s.pipe, m)), clock)
    case ConnectDone(ec, clock) =>
      var t := s.(connects := s.connects - 1);
      if ec.Ok? then QueueProcess(t.(link := Connected), clock) else t.(link := Idle)
    case SendDone(i, ec, readBuffer) =>
      var t := s.(io := EndWrite(s.io, i));
      if ec.Ok? then t.(io := StartWaitAndRead(t.io, readBuffer)) else Broken(t, ec)
    case WaitDone(g, ec, cancelled) => s.(io := EndWait(s.io, g, ec, cancelled))
    case ReceiveDone(i, alive, ec, reply, clock) =>
      var t := s.(io := EndRead(s.io, i));
      if !alive then t
      else
        var u := t.(io := CancelTimer(t.io));
        if !ec.Ok? then Broken(u, ec)
        else
          QueueProcess(
            u.(pipe := Respond(s.pipe, s.io.reading[i].buffer, reply, Accepts(s, reply)), link := Connected), clock)
  }

  ghost predicate IsRun(states: seq<State>, events: seq<Event>) {
    && |states| == |events| + 1
    && (exists timeout :: states[0] == Init(timeout))
    && (forall k :: 0 <= k < |events| ==> Follows(states, events, k))
  }

  /** The k-th event of a run is possible in the state before it and leads to the state after it. */
  ghost predicate Follows(states: seq<State>, events: seq<Event>, k: nat)
    requires |states| == |events| + 1 && k < |events|
  {
    Enabled(states[k], events[k]) && states[k + 1] == Step(states[k], events[k])
  }

  /** At most one send or receive is pending, whatever pending connects do to the link state meanwhile; while one is, the
      slot is occupied, and it owns the buffer being sent, which the send handler does not keep alive itself. */
  ghost predicate SingleOutstanding(s: State) {
    && Sound(s.io)
    && (Count(s.io) == 1 ==> s.pipe.current.Some?)
    && (s.io.writing != [] ==> s.io.writing[0].buffer == s.pipe.current.value.msg.buffer)
  }

  ghost predicate LinkInv(s: State) {
    && (s.link == MessageProcess ==> s.pipe.current.Some?)
    && s.link != WaitConnect
  }

  ghost predicate Inv(s: State) {
    && Conserved(s.pipe, s.timeout)
    && SingleOutstanding(s)
    && LinkInv(s)
  }

  /** The slot is occupied and nothing is pending that could ever free it. */
  predicate Trapped(s: State) {
    s.pipe.current.Some? && s.io.writing == [] && s.io.reading == []
  }

  /** The two ways a receive handler ends without freeing the slot. */
  predicate LeavesSlot(e: Event) {
    e.ReceiveDone? && (!e.exchangeAlive || (e.ec.Ok? && !e.reply.sizeOk))
  }

  lemma QueueProcessKeepsInv(s: State, clock: Clock)
    requires Inv(s) && (s.pipe.current.None? ==> Count(s.io) == 0)
    ensures var t := QueueProcess(s, clock);
            && Inv(t)
            && (t.pipe.queue != [] && t.pipe.current.None? ==> t.connects > 0)
            && (s.pipe.current.Some? ==> t.pipe == s.pipe && t.io == s.io)
            && (s.pipe.current.None? && t.pipe.current.Some? ==> Count(t.io) == 1)
  {
    AdvanceConserves(s.pipe, s.timeout, clock);
    AdvanceShape(s.pipe, s.timeout, clock);
    var p := Advance(s.pipe, s.timeout, clock);
    if s.pipe.current.None? && p.current.Some? {
      StartWriteSound(s.io, p.current.value.msg.buffer);
    }
  }

  lemma ReceiveKeepsInv(s: State, e: Event)
    requires Inv(s) && Enabled(s, e) && e.Receive?
    ensures Inv(Step(s, e)) && (Trapped(Step(s, e)) <==> Trapped(s))
  {
    EnqueueConserves(s.pipe, s.timeout, e.msg);
    QueueProcessKeepsInv(s.(pipe := Enqueue(s.pipe, e.msg)), e.clock);
  }

  lemma ConnectDoneKeepsInv(s: State, e: Event)
    requires Inv(s) && Enabled(s, e) && e.ConnectDone?
    ensures Inv(Step(s, e)) && (Trapped(Step(s, e)) <==> Trapped(s))
  {
    hide Conserved, QueueProcess;
    if e.ec.Ok? {
      QueueProcessKeepsInv(s.(connects := s.connects - 1, link := Connected), e.clock);
    }
  }

  lemma SendDoneKeepsInv(s: State, e: Event)
    requires Inv(s) && Enabled(s, e) && e.SendDone?
    ensures Inv(Step(s, e)) && !Trapped(s) && !Trapped(Step(s, e))
  {
    FreeConserves(s.pipe, s.timeout);
    EndWriteSound(s.io, e.write);
    StartWaitAndReadSound(EndWrite(s.io, e.write), e.readBuffer);
  }

  lemma WaitDoneKeepsInv(s: State, e: Event)
    requires Inv(s) && Enabled(s, e) && e.WaitDone?
    ensures Inv(Step(s, e)) && (Trapped(Step(s, e)) <==> Trapped(s))
  {
    EndWaitSound(s.io, e.wait, e.ec, e.cancelled);
  }

  /** After the last operation has ended in an error. */
  lemma BrokenKeepsInv(s: State, ec: Ec)
    requires Conserved(s.pipe, s.timeout) && Sound(s.io) && Count(s.io) == 0
    ensures Inv(Broken(s, ec)) && !Trapped(Broken(s, ec))
  {
    FreeConserves(s.pipe, s.timeout);
  }

  lemma RepliedKeepsInv(s: State, e: Event)
    requires Inv(s) && Enabled(s, e) && e.ReceiveDone? && e.exchangeAlive && e.ec.Ok?
    ensures Inv(Step(s, e)) && (Trapped(Step(s, e)) <==> LeavesSlot(e))
  {
    EndReadSound(s.io, e.read);
    RespondConserves(s.pipe, s.timeout, s.io.reading[e.read].buffer, e.reply, Accepts(s, e.reply));
    QueueProcessKeepsInv(
      s.(io := CancelTimer(EndRead(s.io, e.read)), link := Connected,
         pipe := Respond(s.pipe, s.io.reading[e.read].buffer, e.reply, Accepts(s, e.reply))), e.clock);
  }

  lemma ReceiveDoneKeepsInv(s: State, e: Event)
    requires Inv(s) && Enabled(s, e) && e.ReceiveDone?
    ensures Inv(Step(s, e)) && !Trapped(s) && (Trapped(Step(s, e)) <==> LeavesSlot(e))
  {
    EndReadSound(s.io, e.read);
    if e.exchangeAlive && e.ec.Ok? {
      RepliedKeepsInv(s, e);
    } else if e.exchangeAlive {
      BrokenKeepsInv(s.(io := CancelTimer(EndRead(s.io, e.read))), e.ec);
    }
  }

  lemma StepKeepsInv(s: State, e: Event)
    requires Inv(s) && Enabled(s, e)
    ensures Inv(Step(s, e))
    ensures Trapped(Step(s, e)) <==> Trapped(s) || LeavesSlot(e)
  {
    match e
    case Receive(_, _) => ReceiveKeepsInv(s, e);
    case ConnectDone(_, _) => ConnectDoneKeepsInv(s, e);
    case SendDone(_, _, _) => SendDoneKeepsInv(s, e);
    case WaitDone(_, _, _) => WaitDoneKeepsInv(s, e);
    case ReceiveDone(_, _, _, _, _) => ReceiveDoneKeepsInv(s, e);
  }

  /** Every state of every run satisfies the invariant. */
  lemma {:induction false} RunInv(states: seq<State>, events: seq<Event>, n: nat)
    requires IsRun(states, events) && n < |states|
    ensures Inv(states[n])
  {
    hide Step;
    if n > 0 {
      RunInv(states, events, n - 1);
      assert Follows(states, events, n - 1);
      StepKeepsInv(states[n - 1], events[n - 1]);
    }
  }

  /** Appending an enabled step to a run gives a run. */
  lemma RunExtends(states: seq<State>, events: seq<Event>, e: Event)
    requires IsRun(states, events) && Enabled(states[|events|], e)
    ensures IsRun(states + [Step(states[|events|], e)], events + [e])
  {
    hide Step, Enabled;
    var states', events' := states + [Step(states[|events|], e)], events + [e];
    assert states'[0] == states[0];
    forall k | 0 <= k < |events'| ensures Follows(states', events', k) {
      if k < |events| {
        assert Follows(states, events, k);
      }
    }
  }
}
