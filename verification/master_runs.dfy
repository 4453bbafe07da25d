/** What holds of every run of either master, for any order and any outcome of its completions. */
module MasterRuns {
  import opened LimitQueues
  import opened Messages
  import opened Pipeline
  import opened PendingIo
  import opened Masters
  import RtuMaster
  import TcpClient

  ghost predicate IsRun(states: seq<Master>, events: seq<Event>) {
    && |states| == |events| + 1
    && Fresh(states[0])
    && (forall k :: 0 <= k < |events| ==> Follows(states, events, k))
  }

  /** The k-th event of a run is possible in the state before it and leads to the state after it. */
  ghost predicate Follows(states: seq<Master>, events: seq<Event>, k: nat)
    requires |states| == |events| + 1 && k < |events|
  {
    Enabled(states[k], events[k]) && states[k + 1] == Step(states[k], events[k])
  }

  lemma {:induction false} RunInv(states: seq<Master>, events: seq<Event>, n: nat)
    requires IsRun(states, events) && n < |states|
    ensures Masters.Inv(states[n]) && (states[n].Rtu? <==> states[0].Rtu?)
  {
    hide RtuMaster.Step;
    if n > 0 {
      RunInv(states, events, n - 1);
      assert Follows(states, events, n - 1);
      StepKeepsInv(states[n - 1], events[n - 1]);
    }
  }

  /** Appending an enabled step to a run gives a run. */
  lemma RunExtends(states: seq<Master>, events: seq<Event>, e: Event)
    requires IsRun(states, events) && Enabled(states[|events|], e)
    ensures IsRun(states + [Step(states[|events|], e)], events + [e])
  {
    hide Step, Enabled;
    var states', events' := states + [Step(states[|events|], e)], events + [e];
    forall k | 0 <= k < |events'| ensures Follows(states', events', k) {
      if k < |events| {
        assert Follows(states, events, k);
      }
    }
  }

  /** A run of an RTU master, by itself. */
  lemma RtuRun(states: seq<Master>, events: seq<Event>)
    returns (ms: seq<RtuMaster.State>, es: seq<RtuMaster.Event>)
    requires IsRun(states, events) && states[0].Rtu?
    ensures RtuMaster.IsRun(ms, es) && |ms| == |states| && |es| == |events|
    ensures forall k :: 0 <= k < |states| ==> states[k].Rtu? && states[k].rtu == ms[k]
    ensures forall k :: 0 <= k < |events| ==> events[k] == RtuEvent(es[k])
  {
    forall k | 0 <= k < |states| ensures states[k].Rtu? {
      RunInv(states, events, k);
    }
    forall k | 0 <= k < |events| ensures events[k].RtuEvent? {
      assert Follows(states, events, k);
    }
    ms := seq(|states|, k requires 0 <= k < |states| && states[k].Rtu? => states[k].rtu);
    es := seq(|events|, k requires 0 <= k < |events| && events[k].RtuEvent? => events[k].rtu);
    assert ms[0] == RtuMaster.Init(ms[0].timeout);
    forall k | 0 <= k < |es| ensures RtuMaster.Follows(ms, es, k) {
      assert Follows(states, events, k);
    }
  }

  /** A run of a TCP client, by itself. */
  lemma TcpRun(states: seq<Master>, events: seq<Event>)
    returns (ms: seq<TcpClient.State>, es: seq<TcpClient.Event>)
    requires IsRun(states, events) && states[0].Tcp?
    ensures TcpClient.IsRun(ms, es) && |ms| == |states| && |es| == |events|
    ensures forall k :: 0 <= k < |states| ==> states[k] == Tcp(ms[k])
    ensures forall k :: 0 <= k < |events| ==> events[k] == TcpEvent(es[k])
  {
    forall k | 0 <= k < |states| ensures states[k].Tcp? {
      RunInv(states, events, k);
    }
    forall k | 0 <= k < |events| ensures events[k].TcpEvent? {
      assert Follows(states, events, k);
    }
    ms := seq(|states|, k requires 0 <= k < |states| && states[k].Tcp? => states[k].tcp);
    es := seq(|events|, k requires 0 <= k < |events| && events[k].TcpEvent? => events[k].tcp);
    assert ms[0] == TcpClient.Init(ms[0].timeout);
    forall k | 0 <= k < |es| ensures TcpClient.Follows(ms, es, k) {
      assert Follows(states, events, k);
    }
  }

  // ---------- what is received ----------

  /** The messages that a sequence of events brings in, in order. */
  function Arrivals(events: seq<Event>): seq<Msg> {
    if events == [] then [] else Arrivals(events[..|events| - 1]) + Incoming(events[|events| - 1])
  }

  lemma StepReceives(m: Master, e: Event)
    requires Enabled(m, e)
    ensures PipeOf(Step(m, e)).log.received == PipeOf(m).log.received + Incoming(e)
  {
    assert PipeOf(m).log.received + [] == PipeOf(m).log.received;
    if m.Rtu? {
      RtuStepReceives(m.rtu, e.rtu);
    } else {
      TcpStepReceives(m.tcp, e.tcp);
    }
  }

  lemma RtuStepReceives(s: RtuMaster.State, e: RtuMaster.Event)
    requires RtuMaster.Enabled(s, e)
    ensures RtuMaster.Step(s, e).pipe.log.received == s.pipe.log.received + if e.Receive? then [e.msg] else []
  {
    match e
    case Receive(m, clock) => AdvanceShape(Enqueue(s.pipe, m), s.timeout, clock);
    case WriteDone(_, _, _) =>
    case WaitDone(_, _, _) =>
    case ReadDone(i, _, _, reply, clock) =>
      AdvanceShape(Respond(s.pipe, s.io.reading[i].buffer, reply, reply.checkOk), s.timeout, clock);
  }

  lemma TcpQueueProcessReceives(s: TcpClient.State, clock: Clock)
    ensures TcpClient.QueueProcess(s, clock).pipe.log.received == s.pipe.log.received
  {
    AdvanceShape(s.pipe, s.timeout, clock);
  }

  lemma TcpStepReceives(s: TcpClient.State, e: TcpClient.Event)
    requires TcpClient.Enabled(s, e)
    ensures TcpClient.Step(s, e).pipe.log.received == s.pipe.log.received + if e.Receive? then [e.msg] else []
  {
    hide TcpClient.QueueProcess;
    match e
    case Receive(m, clock) => TcpQueueProcessReceives(s.(pipe := Enqueue(s.pipe, m)), clock);
    case ConnectDone(_, clock) =>
      TcpQueueProcessReceives(s.(connects := s.connects - 1, link := TcpClient.Connected), clock);
    case SendDone(_, _, _) =>
    case WaitDone(_, _, _) =>
    case ReceiveDone(i, _, _, reply, clock) =>
      TcpQueueProcessReceives(
        s.(io := CancelTimer(EndRead(s.io, i)), link := TcpClient.Connected,
           pipe := Respond(s.pipe, s.io.reading[i].buffer, reply, TcpClient.Accepts(s, reply))), clock);
  }

  /** No message is thrown away unseen: in every run of either master, what the master has received is exactly what the events
      brought in, in order. Conservation then says what became of each. */
  lemma {:induction false} ReceivesExactly(states: seq<Master>, events: seq<Event>, n: nat)
    requires IsRun(states, events) && n < |states|
    ensures PipeOf(states[n]).log.received == Arrivals(events[..n])
  {
    hide Step, Incoming;
    if n > 0 {
      ReceivesExactly(states, events, n - 1);
      assert Follows(states, events, n - 1);
      StepReceives(states[n - 1], events[n - 1]);
      assert events[..n][..n - 1] == events[..n - 1];
    }
  }

  /** From p to q at most one request was dispatched, the one started. */
  ghost predicate DispatchesOne(p: Pipe, q: Pipe) {
    q.log.dispatched == p.log.dispatched + if Started(p, q).Some? then [Started(p, q).value] else []
  }

  lemma AdvanceDispatches(p: Pipe, r: Pipe, timeout: int, clock: Clock)
    requires r.log.dispatched == p.log.dispatched
    ensures DispatchesOne(p, r) && DispatchesOne(p, Advance(r, timeout, clock))
  {
    AdvanceShape(r, timeout, clock);
    assert p.log.dispatched + [] == p.log.dispatched;
  }

  lemma RtuStepDispatches(s: RtuMaster.State, e: RtuMaster.Event)
    requires RtuMaster.Enabled(s, e)
    ensures DispatchesOne(s.pipe, RtuMaster.Step(s, e).pipe)
  {
    hide DispatchesOne;
    match e
    case Receive(m, clock) => AdvanceDispatches(s.pipe, Enqueue(s.pipe, m), s.timeout, clock);
    case WriteDone(_, _, _) => AdvanceDispatches(s.pipe, RtuMaster.Step(s, e).pipe, 0, _ => 0);
    case WaitDone(_, _, _) => AdvanceDispatches(s.pipe, s.pipe, 0, _ => 0);
    case ReadDone(i, alive, ec, reply, clock) =>
      if alive && ec.Ok? {
        AdvanceDispatches(s.pipe, Respond(s.pipe, s.io.reading[i].buffer, reply, reply.checkOk), s.timeout, clock);
      } else {
        AdvanceDispatches(s.pipe, RtuMaster.Step(s, e).pipe, 0, _ => 0);
      }
  }

  lemma TcpStepDispatches(s: TcpClient.State, e: TcpClient.Event)
    requires TcpClient.Enabled(s, e)
    ensures DispatchesOne(s.pipe, TcpClient.Step(s, e).pipe)
  {
    hide DispatchesOne, TcpClient.QueueProcess;
    match e
    case Receive(m, clock) => TcpQueueProcessDispatches(s.pipe, s.(pipe := Enqueue(s.pipe, m)), clock);
    case ConnectDone(ec, clock) =>
      TcpQueueProcessDispatches(s.pipe, s.(connects := s.connects - 1, link := TcpClient.Connected), clock);
    case SendDone(_, _, _) => AdvanceDispatches(s.pipe, TcpClient.Step(s, e).pipe, 0, _ => 0);
    case WaitDone(_, _, _) => AdvanceDispatches(s.pipe, s.pipe, 0, _ => 0);
    case ReceiveDone(i, alive, ec, reply, clock) =>
      if alive && ec.Ok? {
        TcpQueueProcessDispatches(
          s.pipe, s.(io := CancelTimer(EndRead(s.io, i)), link := TcpClient.Connected,
                     pipe := Respond(s.pipe, s.io.reading[i].buffer, reply, TcpClient.Accepts(s, reply))), clock);
      } else {
        AdvanceDispatches(s.pipe, TcpClient.Step(s, e).pipe, 0, _ => 0);
      }
  }

  lemma TcpQueueProcessDispatches(p: Pipe, s: TcpClient.State, clock: Clock)
    requires s.pipe.log.dispatched == p.log.dispatched
    ensures DispatchesOne(p, s.pipe) && DispatchesOne(p, TcpClient.QueueProcess(s, clock).pipe)
  {
    hide DispatchesOne;
    AdvanceDispatches(p, s.pipe, s.timeout, clock);
  }

  /** A step dispatches at most one request, the one it starts. */
  lemma StepDispatches(m: Master, e: Event)
    requires Enabled(m, e)
    ensures DispatchesOne(PipeOf(m), PipeOf(Step(m, e)))
  {
    hide DispatchesOne;
    if m.Rtu? {
      RtuStepDispatches(m.rtu, e.rtu);
    } else {
      TcpStepDispatches(m.tcp, e.tcp);
    }
  }

  /** Conservation needs no bound on the queue, but up to 2^64 messages nothing is ever evicted. */
  lemma NothingEvicted(states: seq<Master>, events: seq<Event>, n: nat, i: nat)
    requires IsRun(states, events) && n < |states|
    requires |PipeOf(states[n]).log.received| <= SIZE_MAX + 1 && i < |PipeOf(states[n]).log.fates|
    ensures !PipeOf(states[n]).log.fates[i].outcome.Evicted?
  {
    RunInv(states, events, n);
  }

  // ---------- the slot ----------

  /** The slot is stuck exactly when some read completed on a dead exchange or with a frame of an invalid size. */
  lemma {:induction false} TrappedIff(states: seq<Master>, events: seq<Event>, n: nat)
    requires IsRun(states, events) && n < |states|
    ensures Trapped(states[n]) <==> exists k :: 0 <= k < n && LeavesSlot(events[k])
  {
    if n > 0 {
      TrappedIff(states, events, n - 1);
      TrappedNext(states, events, n - 1);
    }
  }

  lemma TrappedNext(states: seq<Master>, events: seq<Event>, n: nat)
    requires IsRun(states, events) && n < |events|
    ensures Trapped(states[n + 1]) <==> Trapped(states[n]) || LeavesSlot(events[n])
  {
    hide Masters.Inv, Masters.Step;
    RunInv(states, events, n);
    assert Follows(states, events, n);
    StepKeepsInv(states[n], events[n]);
  }

  /** Until then, the slot is occupied if and only if exactly one of write and read is pending. */
  lemma SlotExact(states: seq<Master>, events: seq<Event>, n: nat)
    requires IsRun(states, events) && n < |states|
    requires forall k :: 0 <= k < n ==> !LeavesSlot(events[k])
    ensures PipeOf(states[n]).current.Some? <==> Count(IoOf(states[n])) == 1
  {
    TrappedIff(states, events, n);
    RunInv(states, events, n);
  }

  ghost predicate Stuck(p: Pipe, q: Pipe) {
    && q.current == p.current && q.log.dispatched == p.log.dispatched
    && q.log.delivered == p.log.delivered && |q.queue| >= |p.queue|
  }

  lemma RtuTrappedStays(s: RtuMaster.State, e: RtuMaster.Event)
    requires RtuMaster.Enabled(s, e) && RtuMaster.Trapped(s)
    ensures var t := RtuMaster.Step(s, e); RtuMaster.Trapped(t) && Stuck(s.pipe, t.pipe)
  {
  }

  lemma TcpTrappedStays(s: TcpClient.State, e: TcpClient.Event)
    requires TcpClient.Enabled(s, e) && TcpClient.Trapped(s)
    ensures var t := TcpClient.Step(s, e); TcpClient.Trapped(t) && Stuck(s.pipe, t.pipe)
  {
  }

  /** A trapped master stays trapped, however often it reconnects: it never dispatches or delivers again, and its queue never
      shrinks. */
  lemma {:induction false} TrappedForever(states: seq<Master>, events: seq<Event>, i: nat, n: nat)
    requires IsRun(states, events) && i <= n < |states| && Trapped(states[i])
    ensures Trapped(states[n]) && PipeOf(states[n]).current == PipeOf(states[i]).current
    ensures PipeOf(states[n]).log.dispatched == PipeOf(states[i]).log.dispatched
    ensures PipeOf(states[n]).log.delivered == PipeOf(states[i]).log.delivered
    ensures |PipeOf(states[n]).queue| >= |PipeOf(states[i]).queue|
    decreases n
  {
    if n > i {
      TrappedForever(states, events, i, n - 1);
      assert Follows(states, events, n - 1);
      var m, e := states[n - 1], events[n - 1];
      if m.Rtu? {
        RtuTrappedStays(m.rtu, e.rtu);
      } else {
        TcpTrappedStays(m.tcp, e.tcp);
      }
    }
  }

  // ---------- timers ----------

  lemma RtuStepKeepsTimer(s: RtuMaster.State, e: RtuMaster.Event)
    requires RtuMaster.SingleOutstanding(s) && RtuMaster.Enabled(s, e) && (RtuMaster.Trapped(s) || TimerIsOwn(s.io))
    ensures var t := RtuMaster.Step(s, e); RtuMaster.Trapped(t) || TimerIsOwn(t.io)
  {
    match e
    case Receive(m, clock) => AdvanceShape(Enqueue(s.pipe, m), s.timeout, clock);
    case WriteDone(i, ec, readBuffer) =>
    case WaitDone(g, ec, cancelled) =>
    case ReadDone(i, alive, ec, reply, clock) =>
      AdvanceShape(Respond(s.pipe, s.io.reading[i].buffer, reply, reply.checkOk), s.timeout, clock);
  }

  lemma TcpStepKeepsTimer(s: TcpClient.State, e: TcpClient.Event)
    requires TcpClient.SingleOutstanding(s) && TcpClient.Enabled(s, e) && (TcpClient.Trapped(s) || TimerIsOwn(s.io))
    ensures var t := TcpClient.Step(s, e); TcpClient.Trapped(t) || TimerIsOwn(t.io)
  {
    match e
    case Receive(m, clock) => AdvanceShape(Enqueue(s.pipe, m), s.timeout, clock);
    case ConnectDone(ec, clock) => AdvanceShape(s.pipe, s.timeout, clock);
    case SendDone(i, ec, readBuffer) =>
    case WaitDone(g, ec, cancelled) =>
    case ReceiveDone(i, alive, ec, reply, clock) => TcpReceiveKeepsTimer(s, e);
  }

  lemma TcpReceiveKeepsTimer(s: TcpClient.State, e: TcpClient.Event)
    requires TcpClient.SingleOutstanding(s) && TcpClient.Enabled(s, e) && e.ReceiveDone?
    ensures var t := TcpClient.Step(s, e); TcpClient.Trapped(t) || TimerIsOwn(t.io)
  {
    var io := TcpClient.Step(s, e).io;
    if e.exchangeAlive {
      assert io.reading == [] && forall g :: g in io.waits ==> io.waits[g];
    }
  }

  /** Unless the slot is trapped, a pending wait belongs to the read that is pending if and only if its timer was not
      cancelled since: only a handler that was already queued by then can hit a later request. */
  lemma {:induction false} StaleIffCancelled(states: seq<Master>, events: seq<Event>, n: nat)
    requires IsRun(states, events) && n < |states|
    ensures Trapped(states[n]) || TimerIsOwn(IoOf(states[n]))
  {
    if n > 0 {
      StaleIffCancelled(states, events, n - 1);
      RunInv(states, events, n - 1);
      assert Follows(states, events, n - 1);
      var m, e := states[n - 1], events[n - 1];
      if m.Rtu? {
        RtuStepKeepsTimer(m.rtu, e.rtu);
      } else {
        TcpStepKeepsTimer(m.tcp, e.tcp);
      }
    }
  }

  /** The wait whose expiry handler an event is, if it found the timer expired and cancelled the port. */
  function Expires(e: Event): Option<nat> {
    match e
    case RtuEvent(WaitDone(g, Ok, true)) => Some(g)
    case TcpEvent(WaitDone(g, Ok, true)) => Some(g)
    case _ => None
  }

  /** The read of wait g itself is what is pending. */
  predicate OwnReadPending(io: Io, g: nat) {
    io.reading != [] && io.reading[0].generation == g
  }

  /** An expiry handler cancels an operation that is not its own request's if and only if its timer had been cancelled before
      and an operation is pending. */
  lemma HitsLaterIff(states: seq<Master>, events: seq<Event>, n: nat)
    requires IsRun(states, events) && n < |events| && Expires(events[n]).Some? && !Trapped(states[n])
    ensures var io, g := IoOf(states[n]), Expires(events[n]).value;
            && g in io.waits
            && (Count(io) == 1 && !OwnReadPending(io, g) <==> io.waits[g] && Count(io) == 1)
  {
    StaleIffCancelled(states, events, n);
    assert Follows(states, events, n);
  }

  /** An expiry handler cancels whatever is pending, and ends nothing but its own wait. */
  lemma ExpiryCancels(states: seq<Master>, events: seq<Event>, n: nat)
    requires IsRun(states, events) && n < |events| && Expires(events[n]).Some?
    ensures var io, io' := IoOf(states[n]), IoOf(states[n + 1]);
            && |io'.writing| == |io.writing| && |io'.reading| == |io.reading|
            && (forall i :: 0 <= i < |io.writing| ==> io'.writing[i] == io.writing[i].(cancelled := true))
            && (forall i :: 0 <= i < |io.reading| ==> io'.reading[i] == io.reading[i].(cancelled := true))
            && io'.waits == io.waits - {Expires(events[n]).value}
  {
    assert Follows(states, events, n);
  }

  /** A read is cancelled only by an expiry handler that cancels the port; it was pending before. */
  lemma ReadingChanges(m: Master, e: Event, i: nat)
    requires Masters.Inv(m) && Enabled(m, e)
    requires var io := IoOf(Step(m, e)); i < |io.reading| && io.reading[i].cancelled && io.reading[i] !in IoOf(m).reading
    ensures Expires(e).Some? && Expires(e).value in IoOf(m).waits && i < |IoOf(m).reading|
    ensures IoOf(m).reading[i].generation == IoOf(Step(m, e)).reading[i].generation
  {
    if m.Rtu? {
      RtuReadingChanges(m.rtu, e.rtu, i);
    } else {
      TcpReadingChanges(m.tcp, e.tcp, i);
    }
  }

  lemma RtuReadingChanges(s: RtuMaster.State, e: RtuMaster.Event, i: nat)
    requires RtuMaster.SingleOutstanding(s) && RtuMaster.Enabled(s, e)
    requires var io := RtuMaster.Step(s, e).io; i < |io.reading| && io.reading[i].cancelled && io.reading[i] !in s.io.reading
    ensures e.WaitDone? && e.ec.Ok? && e.cancelled && i < |s.io.reading|
    ensures s.io.reading[i].generation == RtuMaster.Step(s, e).io.reading[i].generation
  {
    if e.ReadDone? {
      AdvanceShape(Respond(s.pipe, s.io.reading[e.read].buffer, e.reply, e.reply.checkOk), s.timeout, e.clock);
    }
  }

  lemma TcpReadingChanges(s: TcpClient.State, e: TcpClient.Event, i: nat)
    requires TcpClient.SingleOutstanding(s) && TcpClient.Enabled(s, e)
    requires var io := TcpClient.Step(s, e).io; i < |io.reading| && io.reading[i].cancelled && io.reading[i] !in s.io.reading
    ensures e.WaitDone? && e.ec.Ok? && e.cancelled && i < |s.io.reading|
    ensures s.io.reading[i].generation == TcpClient.Step(s, e).io.reading[i].generation
  {
    hide Respond;
    if e.ReceiveDone? {
      AdvanceShape(Respond(s.pipe, s.io.reading[e.read].buffer, e.reply, TcpClient.Accepts(s, e.reply)), s.timeout, e.clock);
    }
  }

  /** A cancelled read was cancelled by an expiry handler that ran while this very read was pending. The handler was the
      read's own if and only if its timer had not been cancelled before. */
  lemma {:induction false} AbortHasCause(states: seq<Master>, events: seq<Event>, n: nat, i: nat) returns (k: nat)
    requires IsRun(states, events) && n < |states|
    requires i < |IoOf(states[n]).reading| && IoOf(states[n]).reading[i].cancelled
    ensures k < n && Expires(events[k]).Some? && Expires(events[k]).value in IoOf(states[k]).waits
    ensures |IoOf(states[k]).reading| == 1
    ensures IoOf(states[k]).reading[0].generation == IoOf(states[n]).reading[i].generation
    ensures var g := Expires(events[k]).value;
            g == IoOf(states[n]).reading[i].generation <==> !IoOf(states[k]).waits[g]
  {
    hide Step;
    var m, e := states[n - 1], events[n - 1];
    var r := IoOf(states[n]).reading[i];
    RunInv(states, events, n - 1);
    assert Follows(states, events, n - 1);
    if j :| 0 <= j < |IoOf(m).reading| && IoOf(m).reading[j] == r {
      k := AbortHasCause(states, events, n - 1, j);
    } else {
      ReadingChanges(m, e, i);
      StaleIffCancelled(states, events, n - 1);
      k := n - 1;
    }
  }

  /** A write is cancelled only by an expiry handler that cancels the port; it was pending before. */
  lemma WritingChanges(m: Master, e: Event, i: nat)
    requires Masters.Inv(m) && Enabled(m, e)
    requires var io := IoOf(Step(m, e)); i < |io.writing| && io.writing[i].cancelled && io.writing[i] !in IoOf(m).writing
    ensures Expires(e).Some? && Expires(e).value in IoOf(m).waits && i < |IoOf(m).writing|
    ensures IoOf(m).writing[i].buffer == IoOf(Step(m, e)).writing[i].buffer
  {
    if m.Rtu? {
      RtuWritingChanges(m.rtu, e.rtu, i);
    } else {
      TcpWritingChanges(m.tcp, e.tcp, i);
    }
  }

  lemma RtuWritingChanges(s: RtuMaster.State, e: RtuMaster.Event, i: nat)
    requires RtuMaster.SingleOutstanding(s) && RtuMaster.Enabled(s, e)
    requires var io := RtuMaster.Step(s, e).io; i < |io.writing| && io.writing[i].cancelled && io.writing[i] !in s.io.writing
    ensures e.WaitDone? && e.ec.Ok? && e.cancelled && i < |s.io.writing|
    ensures s.io.writing[i].buffer == RtuMaster.Step(s, e).io.writing[i].buffer
  {
    match e
    case Receive(m, clock) => AdvanceShape(Enqueue(s.pipe, m), s.timeout, clock);
    case WriteDone(_, _, _) =>
    case WaitDone(_, _, _) =>
    case ReadDone(r, _, _, reply, clock) =>
      AdvanceShape(Respond(s.pipe, s.io.reading[r].buffer, reply, reply.checkOk), s.timeout, clock);
  }

  lemma TcpWritingChanges(s: TcpClient.State, e: TcpClient.Event, i: nat)
    requires TcpClient.SingleOutstanding(s) && TcpClient.Enabled(s, e)
    requires var io := TcpClient.Step(s, e).io; i < |io.writing| && io.writing[i].cancelled && io.writing[i] !in s.io.writing
    ensures e.WaitDone? && e.ec.Ok? && e.cancelled && i < |s.io.writing|
    ensures s.io.writing[i].buffer == TcpClient.Step(s, e).io.writing[i].buffer
  {
    match e
    case Receive(m, clock) => AdvanceShape(Enqueue(s.pipe, m), s.timeout, clock);
    case ConnectDone(_, clock) => AdvanceShape(s.pipe, s.timeout, clock);
    case SendDone(_, _, _) =>
    case WaitDone(_, _, _) =>
    case ReceiveDone(r, _, _, reply, clock) =>
      AdvanceShape(Respond(s.pipe, s.io.reading[r].buffer, reply, TcpClient.Accepts(s, reply)), s.timeout, clock);
  }

  /** A cancelled write was cancelled by a stale expiry handler: its timer had been cancelled before. */
  lemma {:induction false} CancelledWriteHasCause(states: seq<Master>, events: seq<Event>, n: nat, i: nat) returns (k: nat)
    requires IsRun(states, events) && n < |states|
    requires i < |IoOf(states[n]).writing| && IoOf(states[n]).writing[i].cancelled
    ensures k < n && Expires(events[k]).Some? && Expires(events[k]).value in IoOf(states[k]).waits
    ensures |IoOf(states[k]).writing| == 1 && IoOf(states[k]).writing[0].buffer == IoOf(states[n]).writing[i].buffer
    ensures IoOf(states[k]).waits[Expires(events[k]).value]
  {
    hide Step;
    var m, e := states[n - 1], events[n - 1];
    var w := IoOf(states[n]).writing[i];
    RunInv(states, events, n - 1);
    assert Follows(states, events, n - 1);
    if j :| 0 <= j < |IoOf(m).writing| && IoOf(m).writing[j] == w {
      k := CancelledWriteHasCause(states, events, n - 1, j);
    } else {
      WritingChanges(m, e, i);
      StaleIffCancelled(states, events, n - 1);
      k := n - 1;
    }
  }
}
