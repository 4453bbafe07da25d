/** What holds of every run of ModbusTcpClient, for any order and any outcome of its completions. */
module TcpClientRuns {
  import opened Messages
  import opened Pipeline
  import opened PendingIo
  import opened LimitQueues
  import opened Expiry
  import opened TcpClient

  /** Nothing on the wire, no connect on its way, and messages waiting. */
  predicate IdleWork(s: State) {
    s.pipe.queue != [] && s.pipe.current.None? && s.connects == 0
  }

  /** Completions that free the slot or use up the last connect, and do not look at the queue. */
  predicate Strands(s: State, e: Event) {
    || (e.ConnectDone? && !e.ec.Ok? && s.connects == 1 && s.pipe.current.None?)
    || (e.SendDone? && !e.ec.Ok? && s.connects == 0)
    || (e.ReceiveDone? && e.exchangeAlive && !e.ec.Ok? && s.connects == 0)
  }

  lemma IdleWorkIff(s: State, e: Event)
    requires Inv(s) && Enabled(s, e)
    ensures IdleWork(Step(s, e)) <==> (IdleWork(s) && !e.Receive?) || (s.pipe.queue != [] && Strands(s, e))
  {
    hide Conserved, StartWaitAndRead;
    match e
    case Receive(m, clock) =>
      EnqueueConserves(s.pipe, s.timeout, m);
      QueueProcessKeepsInv(s.(pipe := Enqueue(s.pipe, m)), clock);
    case ConnectDone(ec, clock) =>
      if ec.Ok? {
        AdvanceShape(s.pipe, s.timeout, clock);
      }
    case SendDone(i, ec, readBuffer) =>
    case WaitDone(g, ec, cancelled) =>
    case ReceiveDone(i, alive, ec, reply, clock) => ReceiveDoneIdle(s, e);
  }

  lemma ReceiveDoneIdle(s: State, e: Event)
    requires SingleOutstanding(s) && Enabled(s, e) && e.ReceiveDone?
    ensures IdleWork(Step(s, e)) <==> s.pipe.queue != [] && Strands(s, e)
  {
    if e.exchangeAlive && e.ec.Ok? {
      AdvanceShape(Respond(s.pipe, s.io.reading[e.read].buffer, e.reply, Accepts(s, e.reply)), s.timeout, e.clock);
    }
  }

  function Received(e: Event): seq<Msg> {
    if e.Receive? then [e.msg] else []
  }

  /** In every run, work is idle if and only if some completion stranded it and no message was received since. */
  lemma {:induction false} IdleSinceIff(states: seq<State>, events: seq<Event>, n: nat)
    requires IsRun(states, events) && n < |states|
    ensures IdleWork(states[n]) <==>
            exists k :: 0 <= k < n && states[k].pipe.queue != [] && Strands(states[k], events[k])
                        && forall j :: k < j < n ==> !events[j].Receive?
  {
    hide Step;
    if n > 0 {
      IdleSinceIff(states, events, n - 1);
      RunInv(states, events, n - 1);
      assert Follows(states, events, n - 1);
      IdleWorkIff(states[n - 1], events[n - 1]);
    }
  }

  /** From s to t, the earliest message of the queue that is not late was sent, or all were late and none is left. */
  ghost predicate Recovered(s: State, t: State, queue: seq<Msg>, clock: Clock) {
    var live := Unexpired(queue, s.timeout, clock(ExpiredCount(queue, s.timeout, clock, 0)));
    if live == [] then t.pipe.current.None? && t.pipe.queue == [] && t.io == s.io && t.link == Connected
    else
      && t.pipe.current.Some? && t.pipe.current.value.msg == live[0] && t.link == MessageProcess
      && t.pipe.queue == live[1..] && t.io == StartWrite(s.io, live[0].buffer)
  }

  /** Idle work is recovered by the next message if the connection was kept, and by the next successful connect otherwise. */
  lemma NextEventRecovers(s: State, e: Event)
    requires Enabled(s, e) && s.pipe.current.None? && |s.pipe.queue| <= SIZE_MAX
    requires (e.Receive? && s.link == Connected) || (e.ConnectDone? && e.ec.Ok?)
    requires ByAge(s.pipe.queue + Received(e)) && Monotone(e.clock)
    ensures Recovered(s, Step(s, e), s.pipe.queue + Received(e), e.clock)
  {
    var p := if e.Receive? then Enqueue(s.pipe, e.msg) else s.pipe;
    assert p.queue == s.pipe.queue + Received(e);
    AdvanceStartsEarliestUnexpired(p, s.timeout, e.clock);
  }

  /** So it is in every state of every run that has received its messages in the order of their creation. */
  lemma RunRecovers(states: seq<State>, events: seq<Event>, n: nat, e: Event)
    requires IsRun(states, events) && n < |states| && Enabled(states[n], e) && states[n].pipe.current.None?
    requires (e.Receive? && states[n].link == Connected) || (e.ConnectDone? && e.ec.Ok?)
    requires |states[n].pipe.log.received| <= SIZE_MAX && ByAge(states[n].pipe.log.received + Received(e))
    requires Monotone(e.clock)
    ensures Recovered(states[n], Step(states[n], e), states[n].pipe.queue + Received(e), e.clock)
  {
    var log := states[n].pipe.log;
    RunInv(states, events, n);
    SuffixByAge(log.received + Received(e), |log.fates|);
    assert (log.received + Received(e))[|log.fates|..] == states[n].pipe.queue + Received(e);
    NextEventRecovers(states[n], e);
  }

  /** A reply that ends the request in the slot lets the earliest queued message that is not late follow at once. */
  lemma ReplyStartsNext(states: seq<State>, events: seq<Event>, n: nat)
    requires IsRun(states, events) && n < |events|
    requires var e := events[n]; e.ReceiveDone? && e.exchangeAlive && e.ec.Ok? && e.reply.sizeOk && Monotone(e.clock)
    requires ByAge(states[n].pipe.log.received)
    ensures var s, e := states[n], events[n];
            && e.read < |s.io.reading|
            && Recovered(s.(io := CancelTimer(EndRead(s.io, e.read))), states[n + 1], s.pipe.queue, e.clock)
  {
    var s, e := states[n], events[n];
    RunInv(states, events, n);
    assert Follows(states, events, n);
    SuffixByAge(s.pipe.log.received, |s.pipe.log.fates|);
    var p := Respond(s.pipe, s.io.reading[e.read].buffer, e.reply, Accepts(s, e.reply));
    assert p.queue == s.pipe.queue && p.current.None?;
    AdvanceStartsEarliestUnexpired(p, s.timeout, e.clock);
  }

  /** A send or receive failed for another reason than cancellation, so the socket was closed. */
  predicate Closes(e: Event) {
    || (e.SendDone? && e.ec.Failed?)
    || (e.ReceiveDone? && e.exchangeAlive && e.ec.Failed?)
  }

  /** After the socket was closed nothing is put on the wire before a connect has succeeded. */
  lemma {:induction false} ReconnectsFirst(states: seq<State>, events: seq<Event>, i: nat, n: nat)
    requires IsRun(states, events) && i < n < |states| && Closes(events[i])
    requires forall k :: i < k < n ==> !(events[k].ConnectDone? && events[k].ec.Ok?)
    ensures states[n].link == Idle && states[n].pipe.current.None? && Count(states[n].io) == 0
    ensures states[n].pipe.log.dispatched == states[i].pipe.log.dispatched
  {
    RunInv(states, events, n - 1);
    assert Follows(states, events, n - 1);
    if n - 1 > i {
      ReconnectsFirst(states, events, i, n - 1);
    }
  }

  // ---------- connects ----------

  /** A connect is started exactly when a message is received in Idle, which connecting does not leave. */
  lemma ConnectsGrowIff(s: State, e: Event)
    requires Enabled(s, e)
    ensures Step(s, e).connects <= s.connects + 1
    ensures Step(s, e).connects > s.connects <==> e.Receive? && s.link == Idle
  {
  }

  /** A message is received in Idle while a connect is pending. */
  predicate ConnectsAgain(s: State, e: Event) {
    e.Receive? && s.link == Idle && s.connects > 0
  }

  /** At most one connect is ever pending if and only if no message is received in Idle while one is. */
  lemma {:induction false} SingleConnectIff(states: seq<State>, events: seq<Event>, n: nat)
    requires IsRun(states, events) && n < |states|
    ensures (forall k :: 0 <= k <= n ==> states[k].connects <= 1) <==>
            forall k :: 0 <= k < n ==> !ConnectsAgain(states[k], events[k])
  {
    if n > 0 {
      SingleConnectIff(states, events, n - 1);
      assert Follows(states, events, n - 1);
      ConnectsGrowIff(states[n - 1], events[n - 1]);
    }
  }

  /** Idle with an operation pending. */
  predicate IdleBusy(s: State) {
    s.link == Idle && Count(s.io) == 1
  }

  /** A connect fails while an operation is pending: another connect had succeeded before. */
  predicate FailsBeside(s: State, e: Event) {
    e.ConnectDone? && !e.ec.Ok? && Count(s.io) == 1
  }

  lemma IdleBusyStep(s: State, e: Event)
    requires SingleOutstanding(s) && LinkInv(s) && Enabled(s, e)
    ensures IdleBusy(Step(s, e)) ==> IdleBusy(s) || FailsBeside(s, e)
    ensures FailsBeside(s, e) ==> IdleBusy(Step(s, e))
  {
    hide StartWaitAndRead;
    match e
    case Receive(m, clock) => AdvanceShape(Enqueue(s.pipe, m), s.timeout, clock);
    case ConnectDone(ec, clock) => AdvanceShape(s.pipe, s.timeout, clock);
    case SendDone(i, ec, readBuffer) =>
    case WaitDone(g, ec, cancelled) =>
    case ReceiveDone(i, alive, ec, reply, clock) => ReceiveDoneIsNotIdleBusy(s, e);
  }

  lemma ReceiveDoneIsNotIdleBusy(s: State, e: Event)
    requires SingleOutstanding(s) && Enabled(s, e) && e.ReceiveDone?
    ensures !IdleBusy(Step(s, e))
  {
    if e.exchangeAlive && e.ec.Ok? {
      AdvanceShape(Respond(s.pipe, s.io.reading[e.read].buffer, e.reply, Accepts(s, e.reply)), s.timeout, e.clock);
    }
  }

  /** In every run, the client is never Idle with a request on the wire if and only if no connect fails while one is. */
  lemma {:induction false} IdleBusyIff(states: seq<State>, events: seq<Event>, n: nat)
    requires IsRun(states, events) && n < |states|
    ensures (forall k :: 0 <= k <= n ==> !IdleBusy(states[k])) <==>
            forall k :: 0 <= k < n ==> !FailsBeside(states[k], events[k])
  {
    if n > 0 {
      IdleBusyIff(states, events, n - 1);
      RunInv(states, events, n - 1);
      assert Follows(states, events, n - 1);
      IdleBusyStep(states[n - 1], events[n - 1]);
    }
  }

  // ---------- attribution ----------

  /** A receive completes with a well-formed frame. */
  predicate Valid(e: Event) {
    e.ReceiveDone? && e.exchangeAlive && e.ec.Ok? && e.reply.sizeOk && e.reply.checkOk
  }

  predicate Delivers(s: State, e: Event) {
    Valid(e) && Accepts(s, e.reply)
  }

  /** The number of dispatches since the request that the reply answers. */
  function Age(s: State, e: Event): int
    requires e.ReceiveDone?
  {
    |s.pipe.log.dispatched| - 1 - e.reply.answers
  }

  /** The remote side only echoes identifiers of requests already sent. */
  ghost predicate Echoes(s: State, e: Event) {
    Valid(e) ==>
      var k := e.reply.answers;
      0 <= k < |s.pipe.log.dispatched| && e.reply.transactionId == s.pipe.log.dispatched[k].id
  }

  ghost predicate AllRight(s: State) {
    forall j :: 0 <= j < |s.pipe.log.delivered| ==> s.pipe.log.delivered[j].answers == s.pipe.log.delivered[j].index
  }

  /** An echo passes the identifier check exactly when its request is a multiple of 2^16 dispatches old. */
  lemma AcceptedIff(s: State, e: Event)
    requires Inv(s) && Enabled(s, e) && Valid(e) && Echoes(s, e)
    ensures Delivers(s, e) <==> Age(s, e) % ID_SPACE == 0
  {
    var n, k := |s.pipe.log.dispatched|, e.reply.answers;
    assert Count(s.io) == 1;
    assert s.pipe.current.value.id == n % ID_SPACE;
    assert e.reply.transactionId == (k + 1) % ID_SPACE;
    CongruentIff(n, k + 1);
  }

  /** One step delivers at most one message: the info of the slot's request with the frame just read. */
  lemma StepDelivers(s: State, e: Event)
    requires SingleOutstanding(s) && Enabled(s, e)
    ensures Step(s, e).pipe.log.delivered == s.pipe.log.delivered +
            if Delivers(s, e) then
              [Delivery(|s.pipe.log.dispatched| - 1,
                        Msg(s.pipe.current.value.msg.info, s.io.reading[e.read].buffer), e.reply.answers)]
            else []
    ensures s.pipe.log.dispatched <= Step(s, e).pipe.log.dispatched
  {
    if e.ReceiveDone? && e.exchangeAlive && e.ec.Ok? {
      ReceiveDelivers(s, e);
    } else {
      OthersDeliverNothing(s, e);
      assert s.pipe.log.delivered + [] == s.pipe.log.delivered;
    }
  }

  lemma OthersDeliverNothing(s: State, e: Event)
    requires Enabled(s, e) && !(e.ReceiveDone? && e.exchangeAlive && e.ec.Ok?)
    ensures Step(s, e).pipe.log.delivered == s.pipe.log.delivered
    ensures s.pipe.log.dispatched <= Step(s, e).pipe.log.dispatched
  {
    match e
    case Receive(m, clock) => AdvanceShape(Enqueue(s.pipe, m), s.timeout, clock);
    case ConnectDone(ec, clock) => AdvanceShape(s.pipe, s.timeout, clock);
    case SendDone(i, ec, readBuffer) =>
    case WaitDone(g, ec, cancelled) =>
    case ReceiveDone(i, alive, ec, reply, clock) =>
  }

  lemma ReceiveDelivers(s: State, e: Event)
    requires SingleOutstanding(s) && Enabled(s, e) && e.ReceiveDone? && e.exchangeAlive && e.ec.Ok?
    ensures var p := Respond(s.pipe, s.io.reading[e.read].buffer, e.reply, Accepts(s, e.reply));
            && Step(s, e).pipe.log.delivered == p.log.delivered
            && s.pipe.log.dispatched <= Step(s, e).pipe.log.dispatched
  {
    AdvanceShape(Respond(s.pipe, s.io.reading[e.read].buffer, e.reply, Accepts(s, e.reply)), s.timeout, e.clock);
  }

  /** The reply is accepted for a request that was sent a positive multiple of 2^16 dispatches after its own. */
  predicate Wraps(s: State, e: Event) {
    Valid(e) && Age(s, e) >= ID_SPACE && Age(s, e) % ID_SPACE == 0
  }

  /** With a remote side that only echoes, the deliveries of a run are all right if and only if no reply wrapped around:
      neither timeouts, late replies, replies displacing the current request, nor reconnects can misattribute one. */
  lemma {:induction false} AttributionIff(states: seq<State>, events: seq<Event>, n: nat)
    requires IsRun(states, events) && n < |states|
    requires forall k :: 0 <= k < |events| ==> Echoes(states[k], events[k])
    ensures AllRight(states[n]) <==> forall k :: 0 <= k < n ==> !Wraps(states[k], events[k])
  {
    if n > 0 {
      AttributionIff(states, events, n - 1);
      RunAttributes(states, events, n - 1);
    }
  }

  /** One step of a run keeps all deliveries right exactly if its reply did not wrap around. */
  lemma RunAttributes(states: seq<State>, events: seq<Event>, n: nat)
    requires IsRun(states, events) && n < |events| && Echoes(states[n], events[n])
    ensures AllRight(states[n + 1]) <==> AllRight(states[n]) && !Wraps(states[n], events[n])
  {
    hide Step, Accepts;
    var s, e := states[n], events[n];
    RunInv(states, events, n);
    assert Follows(states, events, n);
    StepDelivers(s, e);
    var d, t := s.pipe.log.delivered, states[n + 1].pipe.log.delivered;
    assert forall j :: 0 <= j < |d| ==> t[j] == d[j];
    if Valid(e) {
      AcceptedIff(s, e);
      if Delivers(s, e) {
        assert t[|d|].answers == e.reply.answers;
      }
    }
  }

  /** In particular, when no reply is read 2^16 or more dispatches after its request, every message delivered carries the
      source and the original identifier of exactly the request its frame answers. */
  lemma RepliesReachTheirSource(states: seq<State>, events: seq<Event>, n: nat, j: nat)
    requires IsRun(states, events) && n < |states| && j < |states[n].pipe.log.delivered|
    requires forall k :: 0 <= k < |events| ==>
               Echoes(states[k], events[k]) && (Valid(events[k]) ==> Age(states[k], events[k]) < ID_SPACE)
    ensures var log, d := states[n].pipe.log, states[n].pipe.log.delivered[j];
            && d.answers == d.index && 0 <= d.answers < |log.dispatched|
            && d.msg.info == log.dispatched[d.answers].msg.info
  {
    AttributionIff(states, events, n);
    RunInv(states, events, n);
  }

  /** Since state s, whose slot was empty, every delivery is attributed to a dispatch made after s. */
  ghost predicate OnlyLater(s: State, t: State) {
    var d, n := |s.pipe.log.delivered|, |s.pipe.log.dispatched|;
    && s.pipe.log.delivered <= t.pipe.log.delivered
    && n <= |t.pipe.log.dispatched|
    && (t.pipe.current.Some? ==> n < |t.pipe.log.dispatched|)
    && (forall j :: d <= j < |t.pipe.log.delivered| ==> t.pipe.log.delivered[j].index >= n)
  }

  lemma {:induction false} OnlyLaterRun(u: State, states: seq<State>, events: seq<Event>, i: nat, n: nat)
    requires IsRun(states, events) && i <= n < |states| && OnlyLater(u, states[i])
    ensures OnlyLater(u, states[n])
    decreases n
  {
    if n > i {
      OnlyLaterRun(u, states, events, i, n - 1);
      RunInv(states, events, n - 1);
      assert Follows(states, events, n - 1);
      OnlyLaterStep(u, states[n - 1], events[n - 1]);
    }
  }

  lemma OnlyLaterStep(s: State, t: State, e: Event)
    requires OnlyLater(s, t) && SingleOutstanding(t) && Enabled(t, e)
    ensures OnlyLater(s, Step(t, e))
  {
    StepDelivers(t, e);
    if t.pipe.current.None? && Step(t, e).pipe.current.Some? {
      StepFillsSlot(t, e);
    }
  }

  lemma StepFillsSlot(s: State, e: Event)
    requires SingleOutstanding(s) && Enabled(s, e) && s.pipe.current.None? && Step(s, e).pipe.current.Some?
    ensures |Step(s, e).pipe.log.dispatched| > |s.pipe.log.dispatched|
  {
    match e
    case Receive(m, clock) => AdvanceShape(Enqueue(s.pipe, m), s.timeout, clock);
    case ConnectDone(ec, clock) => AdvanceShape(s.pipe, s.timeout, clock);
    case WaitDone(g, ec, cancelled) =>
  }

  /** A late but well-formed reply to an earlier request displaces the request in the slot: nothing is delivered for it,
      then or ever. */
  lemma DisplacedIsNeverAnswered(states: seq<State>, events: seq<Event>, i: nat, n: nat, j: nat)
    requires IsRun(states, events) && i < n < |states| && j < |states[n].pipe.log.delivered|
    requires Valid(events[i]) && Echoes(states[i], events[i]) && 0 < Age(states[i], events[i]) < ID_SPACE
    ensures states[n].pipe.log.delivered[j].index != |states[i].pipe.log.dispatched| - 1
  {
    var s, e := states[i], events[i];
    RunInv(states, events, i);
    assert Follows(states, events, i);
    AcceptedIff(s, e);
    var u := s.(pipe := Free(s.pipe));
    StepDelivers(s, e);
    AdvanceShape(Respond(s.pipe, s.io.reading[e.read].buffer, e.reply, false), s.timeout, e.clock);
    OnlyLaterRun(u, states, events, i + 1, n);
  }

  // ---------- the wrap-around witness ----------

  const NOON: Clock := _ => 0
  const FIRST := Msg(Info(0, false, 1, 7, 0), 10)
  const FILLER := Msg(Info(0, false, 2, 8, 1), 20)

  /** An answer to dispatch k that echoes its identifier, with the given verdict of the frame check. */
  function Echo(k: nat, checkOk: bool): Reply {
    Reply(true, checkOk, (k + 1) % ID_SPACE, Payload(1, []), k)
  }

  lemma Extend(states: seq<State>, events: seq<Event>, e: Event) returns (states': seq<State>, events': seq<Event>)
    requires IsRun(states, events) && Enabled(states[|events|], e) && Echoes(states[|events|], e)
    requires forall k :: 0 <= k < |events| ==> Echoes(states[k], events[k])
    ensures IsRun(states', events') && events' == events + [e] && states <= states' && |states'| == |states| + 1
    ensures forall k :: 0 <= k < |events'| ==> Echoes(states'[k], events'[k])
    ensures states'[|events'|] == Step(states[|events|], e)
  {
    hide Step, Enabled;
    events' := events + [e];
    states' := states + [Step(states[|events|], e)];
    RunExtends(states, events, e);
    assert forall k :: 0 <= k < |events| ==> states'[k] == states[k] && events'[k] == events[k];
  }

  lemma Start() returns (states: seq<State>, events: seq<Event>)
    ensures IsRun(states, events) && events == [] && states == [Init(10)]
  {
    states, events := [Init(10)], [];
  }

  /** Any number of connects can be pending at once. */
  lemma {:induction false} ManyConnects(n: nat) returns (states: seq<State>, events: seq<Event>)
    ensures IsRun(states, events) && (forall k :: 0 <= k < |events| ==> Echoes(states[k], events[k]))
    ensures var s := states[|events|];
            && s.connects == n && s.link == Idle && s.pipe.current.None? && s.timeout == 10 && s.pipe.idGenerator == 0
            && |s.pipe.queue| == (if n <= SIZE_MAX + 1 then n else SIZE_MAX + 1)
            && s.io == NO_IO && s.pipe.log.dispatched == [] && s.pipe.log.delivered == []
            && forall i :: 0 <= i < |s.pipe.queue| ==> s.pipe.queue[i] == FIRST
  {
    if n == 0 {
      states, events := Start();
    } else {
      states, events := ManyConnects(n - 1);
      states, events := Extend(states, events, Receive(FIRST, NOON));
    }
  }

  /** When one of two connects succeeds and the other fails, the client is Idle with a request on the wire. */
  lemma IdleWhileSending() returns (states: seq<State>, events: seq<Event>)
    ensures IsRun(states, events)
    ensures states[|events|].link == Idle && |states[|events|].io.writing| == 1
  {
    states, events := ManyConnects(2);
    states, events := Extend(states, events, ConnectDone(Ok, NOON));
    states, events := Extend(states, events, ConnectDone(Failed, NOON));
  }

  /** Work can be left idle: the only connect fails. */
  lemma IdleWorkIsReachable() returns (states: seq<State>, events: seq<Event>)
    ensures IsRun(states, events) && IdleWork(states[|events|])
  {
    states, events := ManyConnects(1);
    states, events := Extend(states, events, ConnectDone(Failed, NOON));
  }

  /** The first request is sent and its receive is pending. */
  lemma SendFirst() returns (states: seq<State>, events: seq<Event>)
    ensures IsRun(states, events) && (forall k :: 0 <= k < |events| ==> Echoes(states[k], events[k]))
    ensures var s := states[|events|];
            && s.io == StartWaitAndRead(NO_IO, 11) && s.pipe.queue == [] && s.timeout == 10
            && s.pipe.current == Some(Current(FIRST, 1)) && s.pipe.log.dispatched == [Current(FIRST, 1)]
            && s.link == MessageProcess && s.pipe.idGenerator == 1 && s.pipe.log.delivered == []
  {
    states, events := ManyConnects(1);
    states, events := Extend(states, events, ConnectDone(Ok, NOON));
    states, events := Extend(states, events, SendDone(0, Ok, 11));
  }

  /** The slot can be trapped: by a reply of an invalid size. */
  lemma TrapIsReachable() returns (states: seq<State>, events: seq<Event>)
    ensures IsRun(states, events) && Trapped(states[|events|])
  {
    states, events := SendFirst();
    states, events := Extend(states, events, ReceiveDone(0, true, Ok, Reply(false, true, 1, Payload(1, []), 0), NOON));
  }

  /** The first request is answered and the second is sent, with the first one's wait not completed yet. */
  lemma SendSecond() returns (states: seq<State>, events: seq<Event>)
    ensures IsRun(states, events) && (forall k :: 0 <= k < |events| ==> Echoes(states[k], events[k]))
    ensures var s := states[|events|];
            && s.pipe.current.Some? && s.pipe.current.value.msg == FILLER
            && s.io == StartWaitAndRead(CancelTimer(EndRead(StartWaitAndRead(NO_IO, 11), 0)), 21)
  {
    states, events := SendFirst();
    states, events := Extend(states, events, ReceiveDone(0, true, Ok, Echo(0, true), NOON));
    states, events := Extend(states, events, Receive(FILLER, NOON));
    states, events := Extend(states, events, SendDone(0, Ok, 21));
  }

  /** A stale expiry handler aborts a later request, although the timer of that request never expired. */
  lemma StaleTimerAbortsLaterRequest() returns (states: seq<State>, events: seq<Event>)
    ensures IsRun(states, events) && |events| > 0
    ensures var n := |events| - 1;
            var s, t := states[n], states[n + 1];
            && events[n].ReceiveDone? && events[n].ec.Aborted?
            && s.pipe.current.Some? && s.pipe.current.value.msg == FILLER && t.pipe.current.None?
            && |s.io.reading| == 1 && s.io.reading[0].generation !in s.io.fired
            && s.io.reading[0].generation in s.io.waits
  {
    states, events := SendSecond();
    states, events := Extend(states, events, WaitDone(0, Ok, true));
    states, events := Extend(states, events, ReceiveDone(0, true, Aborted, Echo(1, true), NOON));
  }

  /** After n + 1 dispatches, the first of which was FIRST, nothing was delivered and nothing waits. */
  ghost predicate Dispatched(s: State, n: nat) {
    && s.timeout == 10 && s.pipe.queue == []
    && s.pipe.idGenerator == (n + 1) % ID_SPACE
    && s.pipe.log.delivered == []
    && |s.pipe.log.dispatched| == n + 1 && s.pipe.log.dispatched[0] == Current(FIRST, 1)
  }

  /** The latest request is in the slot, and its send or its receive is pending. */
  ghost predicate Busy(s: State, n: nat) {
    && Dispatched(s, n) && s.link == MessageProcess
    && s.pipe.current == Some(Current(if n == 0 then FIRST else FILLER, (n + 1) % ID_SPACE))
    && s.pipe.log.dispatched[n] == s.pipe.current.value
    && Count(s.io) == 1
  }

  ghost predicate Ready(s: State, n: nat) {
    Dispatched(s, n) && s.link == Connected && s.pipe.current.None? && Count(s.io) == 0
  }

  lemma Rejected(s: State, n: nat)
    requires Busy(s, n) && |s.io.reading| == 1
    ensures Ready(Step(s, ReceiveDone(0, true, Ok, Echo(n, false), NOON)), n)
  {
  }

  lemma NextSent(s: State, n: nat)
    requires Ready(s, n)
    ensures var t := Step(s, Receive(FILLER, NOON)); Busy(t, n + 1) && |t.io.writing| == 1
  {
    AdvanceShape(Enqueue(s.pipe, FILLER), s.timeout, NOON);
    assert (n + 1 + 1) % ID_SPACE == ((n + 1) % ID_SPACE + 1) % ID_SPACE;
  }

  lemma SendCompletes(s: State, n: nat, buffer: nat)
    requires Busy(s, n) && |s.io.writing| == 1
    ensures var t := Step(s, SendDone(0, Ok, buffer)); Busy(t, n) && |t.io.reading| == 1
  {
  }

  /** The latest request has been sent and its receive is pending. */
  ghost predicate Reached(states: seq<State>, events: seq<Event>, n: nat) {
    && IsRun(states, events) && Busy(states[|events|], n) && |states[|events|].io.reading| == 1
    && forall k :: 0 <= k < |events| ==> Echoes(states[k], events[k])
  }

  lemma FirstCycle() returns (states: seq<State>, events: seq<Event>)
    ensures Reached(states, events, 0)
  {
    states, events := SendFirst();
  }

  lemma NextCycle(states: seq<State>, events: seq<Event>, n: nat) returns (states': seq<State>, events': seq<Event>)
    requires Reached(states, events, n)
    ensures Reached(states', events', n + 1)
  {
    Rejected(states[|events|], n);
    states', events' := Extend(states, events, ReceiveDone(0, true, Ok, Echo(n, false), NOON));
    NextSent(states'[|events'|], n);
    states', events' := Extend(states', events', Receive(FILLER, NOON));
    SendCompletes(states'[|events'|], n + 1, 21);
    states', events' := Extend(states', events', SendDone(0, Ok, 21));
  }

  /** Such states are reachable for every n: each request but the last is answered by a frame that fails the check. */
  lemma {:induction false} Cycles(n: nat) returns (states: seq<State>, events: seq<Event>)
    ensures Reached(states, events, n)
  {
    if n == 0 {
      states, events := FirstCycle();
    } else {
      states, events := Cycles(n - 1);
      states, events := NextCycle(states, events, n - 1);
    }
  }

  /** Without the bound of 2^16 dispatches attribution fails, although the remote side only echoes: the reply to the very
      first request of source 1, read after 2^16 more dispatches, is delivered to source 2. */
  lemma WrappedReplyIsMisattributed() returns (states: seq<State>, events: seq<Event>)
    ensures IsRun(states, events)
    ensures forall k :: 0 <= k < |events| ==> Echoes(states[k], events[k])
    ensures var log := states[|events|].pipe.log;
            && |log.delivered| == 1 && log.delivered[0].answers == 0 && |log.dispatched| > 0
            && log.dispatched[0].msg.info.sourceId == 1
            && log.delivered[0].msg.info.sourceId == 2
  {
    states, events := Cycles(ID_SPACE);
    states, events := Extend(states, events, ReceiveDone(0, true, Ok, Echo(0, true), NOON));
  }
}
