/** What holds of every run of ModbusRtuMaster, for any order and any outcome of its completions. */
module RtuMasterRuns {
  import opened LimitQueues
  import opened Messages
  import opened Pipeline
  import opened PendingIo
  import opened Expiry
  import opened RtuMaster

  // ---------- work conservation ----------

  predicate IdleWork(s: State) {
    s.pipe.queue != [] && s.pipe.current.None?
  }

  /** The completions that free the slot and do not look at the queue. */
  predicate FreesOnly(e: Event) {
    || (e.WriteDone? && !e.ec.Ok?)
    || (e.ReadDone? && e.exchangeAlive && !e.ec.Ok?)
  }

  /** Work sits idle after a step exactly when an error completion freed the slot with work queued, or it sat idle before
      and the step brought no new message. */
  lemma IdleWorkIff(s: State, e: Event)
    requires SingleOutstanding(s) && Enabled(s, e)
    ensures IdleWork(Step(s, e)) <==> (IdleWork(s) && !e.Receive?) || (s.pipe.queue != [] && FreesOnly(e))
  {
    match e
    case Receive(m, clock) => AdvanceShape(Enqueue(s.pipe, m), s.timeout, clock);
    case WriteDone(i, ec, readBuffer) =>
    case WaitDone(g, ec, cancelled) =>
    case ReadDone(i, alive, ec, reply, clock) => ReadDoneIdle(s, e);
  }

  lemma ReadDoneIdle(s: State, e: Event)
    requires SingleOutstanding(s) && Enabled(s, e) && e.ReadDone?
    ensures IdleWork(Step(s, e)) <==> s.pipe.queue != [] && FreesOnly(e)
  {
    if e.exchangeAlive && e.ec.Ok? {
      AdvanceShape(Respond(s.pipe, s.io.reading[e.read].buffer, e.reply, e.reply.checkOk), s.timeout, e.clock);
    }
  }

  /** In every run, work is idle if and only if some error completion freed the slot with messages queued, and no message was
      received since. */
  lemma {:induction false} IdleSinceIff(states: seq<State>, events: seq<Event>, n: nat)
    requires IsRun(states, events) && n < |states|
    ensures IdleWork(states[n]) <==>
            exists k :: 0 <= k < n && states[k].pipe.queue != [] && FreesOnly(events[k])
                        && forall j :: k < j < n ==> !events[j].Receive?
  {
    if n > 0 {
      IdleSinceIff(states, events, n - 1);
      RunInv(states, events, n - 1);
      assert Follows(states, events, n - 1);
      IdleWorkIff(states[n - 1], events[n - 1]);
    }
  }

  /** From s to t, the earliest message of the queue that is not late went to the wire, or all were late and none is left. */
  ghost predicate Recovered(s: State, t: State, queue: seq<Msg>, clock: Clock) {
    var live := Unexpired(queue, s.timeout, clock(ExpiredCount(queue, s.timeout, clock, 0)));
    if live == [] then t.pipe.current.None? && t.pipe.queue == [] && t.io == s.io
    else
      && t.pipe.current.Some? && t.pipe.current.value.msg == live[0]
      && t.pipe.queue == live[1..] && t.io == StartWrite(s.io, live[0].buffer)
  }

  /** The next message received recovers idle work. */
  lemma NextReceiveRecovers(s: State, m: Msg, clock: Clock)
    requires s.pipe.current.None? && |s.pipe.queue| <= SIZE_MAX
    requires ByAge(s.pipe.queue + [m]) && Monotone(clock)
    ensures Recovered(s, Step(s, Receive(m, clock)), s.pipe.queue + [m], clock)
  {
    AdvanceStartsEarliestUnexpired(Enqueue(s.pipe, m), s.timeout, clock);
  }

  /** So it does in every state of every run that has received its messages in the order of their creation. */
  lemma RunRecovers(states: seq<State>, events: seq<Event>, n: nat, m: Msg, clock: Clock)
    requires IsRun(states, events) && n < |states| && states[n].pipe.current.None?
    requires |states[n].pipe.log.received| <= SIZE_MAX && ByAge(states[n].pipe.log.received + [m]) && Monotone(clock)
    ensures Recovered(states[n], Step(states[n], Receive(m, clock)), states[n].pipe.queue + [m], clock)
  {
    RunInv(states, events, n);
    SuffixByAge(states[n].pipe.log.received + [m], |states[n].pipe.log.fates|);
    assert (states[n].pipe.log.received + [m])[|states[n].pipe.log.fates|..] == states[n].pipe.queue + [m];
    NextReceiveRecovers(states[n], m, clock);
  }

  /** A reply that ends the request in the slot lets the earliest queued message that is not late follow at once. */
  lemma ReplyStartsNext(states: seq<State>, events: seq<Event>, n: nat)
    requires IsRun(states, events) && n < |events|
    requires var e := events[n]; e.ReadDone? && e.exchangeAlive && e.ec.Ok? && e.reply.sizeOk && Monotone(e.clock)
    requires ByAge(states[n].pipe.log.received)
    ensures var s, e := states[n], events[n];
            && e.read < |s.io.reading|
            && Recovered(s.(io := CancelTimer(EndRead(s.io, e.read))), states[n + 1], s.pipe.queue, e.clock)
  {
    var s, e := states[n], events[n];
    RunInv(states, events, n);
    assert Follows(states, events, n);
    SuffixByAge(s.pipe.log.received, |s.pipe.log.fates|);
    var p := Respond(s.pipe, s.io.reading[e.read].buffer, e.reply, e.reply.checkOk);
    assert p.queue == s.pipe.queue && p.current.None?;
    AdvanceStartsEarliestUnexpired(p, s.timeout, e.clock);
  }

  // ---------- attribution ----------

  /** A completion that makes a delivery. */
  predicate Delivers(e: Event) {
    e.ReadDone? && e.exchangeAlive && e.ec.Ok? && e.reply.sizeOk && e.reply.checkOk
  }

  /** The remote side only answers requests that were put on the wire. */
  ghost predicate AnswersSent(s: State, e: Event) {
    Delivers(e) ==> 0 <= e.reply.answers < |s.pipe.log.dispatched|
  }

  /** A valid reply is read when its request has already left the slot to a later one. */
  predicate Late(s: State, e: Event) {
    Delivers(e) && e.reply.answers < |s.pipe.log.dispatched| - 1
  }

  ghost predicate AllRight(s: State) {
    forall j :: 0 <= j < |s.pipe.log.delivered| ==> s.pipe.log.delivered[j].answers == s.pipe.log.delivered[j].index
  }

  /** One step delivers at most one message: the info of the slot's request with the frame just read. */
  lemma StepDelivers(s: State, e: Event)
    requires SingleOutstanding(s) && Enabled(s, e)
    ensures Step(s, e).pipe.log.delivered == s.pipe.log.delivered +
            if Delivers(e) then
              [Delivery(|s.pipe.log.dispatched| - 1,
                        Msg(s.pipe.current.value.msg.info, s.io.reading[e.read].buffer), e.reply.answers)]
            else []
    ensures s.pipe.log.dispatched <= Step(s, e).pipe.log.dispatched
  {
    match e
    case Receive(m, clock) => AdvanceShape(Enqueue(s.pipe, m), s.timeout, clock);
    case WriteDone(i, ec, readBuffer) =>
    case WaitDone(g, ec, cancelled) =>
    case ReadDone(i, alive, ec, reply, clock) =>
      AdvanceShape(Respond(s.pipe, s.io.reading[i].buffer, reply, reply.checkOk), s.timeout, clock);
  }

  /** RTU and ASCII frames carry no identifier, so a delivery answers the request it is attributed to exactly when it was
      in time: all deliveries of a run are right if and only if no reply it accepted was late. */
  lemma {:induction false} AttributionIff(states: seq<State>, events: seq<Event>, n: nat)
    requires IsRun(states, events) && n < |states|
    requires forall k :: 0 <= k < |events| ==> AnswersSent(states[k], events[k])
    ensures AllRight(states[n]) <==> forall k :: 0 <= k < n ==> !Late(states[k], events[k])
  {
    if n > 0 {
      AttributionIff(states, events, n - 1);
      RunAttributes(states, events, n - 1);
    }
  }

  /** One step of a run keeps all deliveries right exactly if its reply was not late. */
  lemma RunAttributes(states: seq<State>, events: seq<Event>, n: nat)
    requires IsRun(states, events) && n < |events| && AnswersSent(states[n], events[n])
    ensures AllRight(states[n + 1]) <==> AllRight(states[n]) && !Late(states[n], events[n])
  {
    RunInv(states, events, n);
    assert Follows(states, events, n);
    StepDelivers(states[n], events[n]);
    var d, t := states[n].pipe.log.delivered, states[n + 1].pipe.log.delivered;
    assert forall j :: 0 <= j < |d| ==> t[j] == d[j];
    if Delivers(events[n]) {
      assert t[|d|].answers == events[n].reply.answers;
    }
  }

  /** So without late replies every response carries the source and the original id of the request its frame answers. */
  lemma InTimeRepliesReachTheirSource(states: seq<State>, events: seq<Event>, n: nat, j: nat)
    requires IsRun(states, events) && n < |states| && j < |states[n].pipe.log.delivered|
    requires forall k :: 0 <= k < |events| ==> AnswersSent(states[k], events[k]) && !Late(states[k], events[k])
    ensures var log, d := states[n].pipe.log, states[n].pipe.log.delivered[j];
            0 <= d.answers < |log.dispatched| && d.msg.info == log.dispatched[d.answers].msg.info
  {
    AttributionIff(states, events, n);
    RunInv(states, events, n);
  }

  /** No write or read fails, the exchange is alive, and every frame read is valid. */
  predicate Clean(e: Event) {
    && (e.WriteDone? ==> e.ec.Ok?)
    && (e.ReadDone? ==> Delivers(e))
  }

  /** The remote side answers no request twice. */
  ghost predicate AnswersOnce(events: seq<Event>) {
    forall i, j :: 0 <= i < j < |events| && Delivers(events[i]) && Delivers(events[j]) ==>
      events[i].reply.answers != events[j].reply.answers
  }

  /** Everything dispatched has been answered, but for what is in the slot, and in order. */
  ghost predicate AllAnswered(s: State, events: seq<Event>, n: nat)
    requires n <= |events|
  {
    && AllRight(s)
    && |s.pipe.log.dispatched| == |s.pipe.log.delivered| + (if s.pipe.current.Some? then 1 else 0)
    && forall j :: 0 <= j < |s.pipe.log.delivered| ==> Answered(events, n, j)
  }

  /** One of the first n events delivered an answer to dispatch j. */
  ghost predicate Answered(events: seq<Event>, n: nat, j: int)
    requires n <= |events|
  {
    exists k :: 0 <= k < n && Delivers(events[k]) && events[k].reply.answers == j
  }

  /** How a clean step moves the two counts. */
  lemma CleanStep(s: State, e: Event)
    requires SingleOutstanding(s) && Enabled(s, e) && Clean(e)
    requires |s.pipe.log.dispatched| == |s.pipe.log.delivered| + (if s.pipe.current.Some? then 1 else 0)
    ensures var p := Step(s, e).pipe; |p.log.dispatched| == |p.log.delivered| + (if p.current.Some? then 1 else 0)
    ensures Delivers(e) ==> s.pipe.current.Some?
  {
    match e
    case Receive(m, clock) => AdvanceShape(Enqueue(s.pipe, m), s.timeout, clock);
    case WriteDone(i, ec, readBuffer) =>
    case WaitDone(g, ec, cancelled) =>
    case ReadDone(i, alive, ec, reply, clock) =>
      AdvanceShape(Respond(s.pipe, s.io.reading[i].buffer, reply, reply.checkOk), s.timeout, clock);
  }

  lemma {:induction false} CleanRunAnswers(states: seq<State>, events: seq<Event>, n: nat)
    requires IsRun(states, events) && n < |states| && AnswersOnce(events)
    requires forall k :: 0 <= k < |events| ==> AnswersSent(states[k], events[k])
    requires forall k :: 0 <= k < n ==> Clean(events[k])
    ensures AllAnswered(states[n], events, n)
  {
    hide Step;
    if n > 0 {
      CleanRunAnswers(states, events, n - 1);
      RunInv(states, events, n - 1);
      assert Follows(states, events, n - 1);
      CleanStep(states[n - 1], events[n - 1]);
      StepDelivers(states[n - 1], events[n - 1]);
      var d := |states[n - 1].pipe.log.delivered|;
      var m := if Delivers(events[n - 1]) then states[n].pipe.log.delivered[d].msg else Msg(Info(0, false, 0, 0, 0), 0);
      AnswersNext(states[n - 1], states[n], events, n - 1, m);
    }
  }

  lemma NotAnsweredBefore(events: seq<Event>, n: nat)
    requires n < |events| && AnswersOnce(events) && Delivers(events[n])
    ensures !Answered(events, n, events[n].reply.answers)
  {
  }

  /** A reply that no earlier delivery was answered with can only answer the request in the slot. */
  lemma AnswersNext(s: State, t: State, events: seq<Event>, n: nat, m: Msg)
    requires n < |events| && AllAnswered(s, events, n) && AnswersOnce(events) && AnswersSent(s, events[n])
    requires |t.pipe.log.dispatched| == |t.pipe.log.delivered| + (if t.pipe.current.Some? then 1 else 0)
    requires Delivers(events[n]) ==> s.pipe.current.Some?
    requires t.pipe.log.delivered == s.pipe.log.delivered +
               if Delivers(events[n]) then [Delivery(|s.pipe.log.dispatched| - 1, m, events[n].reply.answers)] else []
    ensures AllAnswered(t, events, n + 1)
  {
    var d, next := s.pipe.log.delivered, n + 1;
    if Delivers(events[n]) {
      NotAnsweredBefore(events, n);
      assert events[n].reply.answers == |d|;
      assert Answered(events, next, |d|);
    }
    forall j | 0 <= j < |t.pipe.log.delivered| ensures Answered(events, next, j) {
      if j < |d| {
        assert Answered(events, n, j);
      }
    }
    assert forall j :: 0 <= j < |d| ==> t.pipe.log.delivered[j] == d[j];
  }

  /** What the gateway itself can see: as long as no write or read has failed, the exchange is alive and no frame was rejected,
      a remote side that answers each request at most once makes every delivery right. A misattribution needs an earlier
      request that left the slot by an error or a rejected frame. */
  lemma CleanRunIsRight(states: seq<State>, events: seq<Event>, n: nat)
    requires IsRun(states, events) && n < |states| && AnswersOnce(events)
    requires forall k :: 0 <= k < |events| ==> AnswersSent(states[k], events[k])
    ensures (forall k :: 0 <= k < n ==> Clean(events[k])) ==> AllRight(states[n])
  {
    if forall k :: 0 <= k < n ==> Clean(events[k]) {
      CleanRunAnswers(states, events, n);
    }
  }

  // ---------- witnesses ----------

  const NOON: Clock := _ => 0
  const FIRST := Msg(Info(0, false, 1, 7, 0), 10)
  const SECOND := Msg(Info(0, false, 2, 8, 1), 20)

  function Answer(k: int): Reply {
    Reply(true, true, 0, Payload(1, []), k)
  }

  /** One more step of a run. */
  lemma Extend(states: seq<State>, events: seq<Event>, e: Event) returns (states': seq<State>, events': seq<Event>)
    requires IsRun(states, events) && Enabled(states[|events|], e)
    ensures IsRun(states', events') && states <= states' && events' == events + [e] && |states'| == |states| + 1
    ensures states'[|events'|] == Step(states[|events|], e)
  {
    hide Step, Enabled;
    events' := events + [e];
    states' := states + [Step(states[|events|], e)];
    RunExtends(states, events, e);
  }

  lemma Start(timeout: int) returns (states: seq<State>, events: seq<Event>)
    ensures IsRun(states, events) && events == [] && states == [Init(timeout)]
  {
    states, events := [Init(timeout)], [];
  }

  /** From rest, a message is received and written, and its read starts. */
  lemma SendOne(states: seq<State>, events: seq<Event>, m: Msg) returns (states': seq<State>, events': seq<Event>)
    requires IsRun(states, events)
    requires var s := states[|events|];
             s.pipe.queue == [] && s.pipe.current.None? && s.io.writing == [] && s.io.reading == []
    requires !Expired(m.info, states[|events|].timeout, 0)
    ensures IsRun(states', events') && states <= states' && |events'| == |events| + 2
    ensures events' == events + [Receive(m, NOON), WriteDone(0, Ok, m.buffer + 1)]
    ensures var s, t := states[|events|], states'[|events'|];
            && t.timeout == s.timeout && t.pipe.queue == [] && t.pipe.current.Some? && t.pipe.current.value.msg == m
            && t.pipe.log.delivered == s.pipe.log.delivered
            && t.pipe.log.dispatched == s.pipe.log.dispatched + [t.pipe.current.value]
            && t.io == StartWaitAndRead(s.io, m.buffer + 1)
  {
    states', events' := Extend(states, events, Receive(m, NOON));
    assert EndWrite(states'[|events'|].io, 0) == states[|events|].io;
    states', events' := Extend(states', events', WriteDone(0, Ok, m.buffer + 1));
  }

  /** The slot can be trapped: by a reply of an invalid size. */
  lemma TrapIsReachable() returns (states: seq<State>, events: seq<Event>)
    ensures IsRun(states, events) && Trapped(states[|events|])
  {
    states, events := Start(10);
    states, events := SendOne(states, events, FIRST);
    states, events := Extend(states, events, ReadDone(0, true, Ok, Reply(false, true, 0, Payload(1, []), 0), NOON));
  }

  /** Work can be left idle: a message is queued behind a read that then fails. */
  lemma IdleWorkIsReachable() returns (states: seq<State>, events: seq<Event>)
    ensures IsRun(states, events) && IdleWork(states[|events|])
  {
    states, events := Start(10);
    states, events := SendOne(states, events, FIRST);
    states, events := Extend(states, events, Receive(SECOND, NOON));
    states, events := Extend(states, events, ReadDone(0, true, Failed, Answer(0), NOON));
  }

  /** Without the hypothesis on late replies attribution fails: request 0 of source 1 times out, request 1 of source 2
      goes out, and the reply to request 0 that arrives then is delivered to source 2. */
  lemma LateReplyIsMisattributed() returns (states: seq<State>, events: seq<Event>)
    ensures IsRun(states, events) && |events| == 7
    ensures forall k :: 0 <= k < |events| ==> AnswersSent(states[k], events[k])
    ensures var log := states[7].pipe.log;
            && |log.delivered| == 1 && 0 <= log.delivered[0].answers < |log.dispatched|
            && log.dispatched[log.delivered[0].answers].msg.info.sourceId == 1
            && log.delivered[0].msg.info.sourceId == 2
  {
    states, events := Start(10);
    states, events := SendOne(states, events, FIRST);
    states, events := Extend(states, events, WaitDone(0, Ok, true));
    states, events := Extend(states, events, ReadDone(0, true, Aborted, Answer(0), NOON));
    states, events := SendOne(states, events, SECOND);
    states, events := Extend(states, events, ReadDone(0, true, Ok, Answer(0), NOON));
  }

  /** A stale expiry handler aborts a later request: the wait of request 0 was already due when its reply was read, so
      its handler runs during the read of request 1 and cancels it, although the timer of request 1 never expired. */
  lemma StaleTimerAbortsLaterRequest() returns (states: seq<State>, events: seq<Event>)
    ensures IsRun(states, events) && |events| == 7
    ensures var s, t := states[6], states[7];
            && events[6].ReadDone? && events[6].ec.Aborted?
            && s.pipe.current.Some? && s.pipe.current.value.msg == SECOND && t.pipe.current.None?
            && |s.io.reading| == 1 && s.io.reading[0].generation !in s.io.fired
            && s.io.reading[0].generation in s.io.waits
  {
    states, events := Start(10);
    states, events := SendOne(states, events, FIRST);
    states, events := Extend(states, events, ReadDone(0, true, Ok, Answer(0), NOON));
    states, events := SendOne(states, events, SECOND);
    states, events := Extend(states, events, WaitDone(0, Ok, true));
    states, events := Extend(states, events, ReadDone(0, true, Aborted, Answer(1), NOON));
  }
}
