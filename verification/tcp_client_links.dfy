/** The connection of ModbusTcpClient in terms of its events alone. */
module TcpClientLinks {
  import opened Messages
  import opened Pipeline
  import opened PendingIo
  import opened LimitQueues
  import opened Expiry
  import opened TcpClient
  import TcpClientRuns

  /** After these the client takes itself to be connected: a connect succeeded, or an operation ended without breaking the
      connection, be it with a frame or because it was cancelled. */
  predicate Opens(e: Event) {
    || (e.ConnectDone? && e.ec.Ok?)
    || (e.SendDone? && e.ec.Aborted?)
    || (e.ReceiveDone? && e.exchangeAlive && !e.ec.Failed?)
  }

  /** After these it does not: a connect failed, or an operation did and the socket was closed. */
  predicate Shuts(e: Event) {
    || (e.ConnectDone? && !e.ec.Ok?)
    || (e.SendDone? && e.ec.Failed?)
    || (e.ReceiveDone? && e.exchangeAlive && e.ec.Failed?)
  }

  ghost predicate ShutSince(events: seq<Event>, k: nat, n: nat)
    requires n <= |events|
  {
    exists j :: k < j < n && Shuts(events[j])
  }

  lemma QueueProcessKeepsIdle(s: State, clock: Clock)
    ensures QueueProcess(s, clock).link.Idle? <==> s.link.Idle?
    ensures QueueProcess(s, clock).connects == s.connects + (if s.link.Idle? && s.pipe.queue != [] then 1 else 0)
  {
  }

  lemma StepMovesLink(s: State, e: Event)
    requires Enabled(s, e)
    ensures Step(s, e).link.Idle? <==> Shuts(e) || (s.link.Idle? && !Opens(e))
    ensures Step(s, e).connects == s.connects + (if e.Receive? && s.link.Idle? then 1 else 0)
                                   - (if e.ConnectDone? then 1 else 0)
  {
    hide QueueProcess, Respond;
    match e
    case Receive(m, clock) => QueueProcessKeepsIdle(s.(pipe := Enqueue(s.pipe, m)), clock);
    case ConnectDone(_, clock) => QueueProcessKeepsIdle(s.(connects := s.connects - 1, link := Connected), clock);
    case SendDone(_, _, _) =>
    case WaitDone(_, _, _) =>
    case ReceiveDone(i, _, _, reply, clock) =>
      QueueProcessKeepsIdle(
        s.(io := CancelTimer(EndRead(s.io, i)), link := Connected,
           pipe := Respond(s.pipe, s.io.reading[i].buffer, reply, Accepts(s, reply))), clock);
  }

  /** In every run, the client is Idle if and only if everything that opened the connection was followed by something that shut
      it. */
  lemma {:induction false} IdleIff(states: seq<State>, events: seq<Event>, n: nat)
    requires IsRun(states, events) && n < |states|
    ensures states[n].link.Idle? <==> forall k :: 0 <= k < n && Opens(events[k]) ==> ShutSince(events, k, n)
  {
    hide Step, Opens, Shuts;
    if n > 0 {
      var last := n - 1;
      IdleIff(states, events, last);
      assert Follows(states, events, last);
      StepMovesLink(states[last], events[last]);
      NotBoth(events[last]);
      forall k | 0 <= k < last ensures ShutSince(events, k, n) <==> ShutSince(events, k, last) || Shuts(events[last]) {
      }
      assert !ShutSince(events, last, n);
    }
  }

  lemma NotBoth(e: Event)
    ensures !(Opens(e) && Shuts(e))
  {
  }

  /** The connects started by the events and not completed by them. */
  function ConnectsPending(events: seq<Event>): int {
    if events == [] then 0
    else
      var front, e := events[..|events| - 1], events[|events| - 1];
      ConnectsPending(front) + (if e.Receive? && IdleAfter(front) then 1 else 0) - (if e.ConnectDone? then 1 else 0)
  }

  predicate IdleAfter(events: seq<Event>) {
    if events == [] then true
    else
      var front, e := events[..|events| - 1], events[|events| - 1];
      Shuts(e) || (IdleAfter(front) && !Opens(e))
  }

  /** In every run, the pending connects are those started by the messages received in Idle, less those that completed. */
  lemma {:induction false} ConnectsExactly(states: seq<State>, events: seq<Event>, n: nat)
    requires IsRun(states, events) && n < |states|
    ensures states[n].connects == ConnectsPending(events[..n])
    ensures states[n].link.Idle? <==> IdleAfter(events[..n])
  {
    hide Step;
    if n > 0 {
      ConnectsExactly(states, events, n - 1);
      assert Follows(states, events, n - 1);
      StepMovesLink(states[n - 1], events[n - 1]);
      assert events[..n][..n - 1] == events[..n - 1];
    }
  }

  /** An operation ended because it was cancelled, as after a time-out. */
  predicate Aborts(e: Event) {
    || (e.SendDone? && e.ec.Aborted?)
    || (e.ReceiveDone? && e.exchangeAlive && e.ec.Aborted?)
  }

  /** A time-out does not cost the connection: unless something shuts it afterwards, the next message received with an empty
      slot starts no connect, and the earliest message that is not late is sent at once. */
  lemma KeptAfterTimeout(states: seq<State>, events: seq<Event>, i: nat, n: nat, m: Msg, clock: Clock)
    requires IsRun(states, events) && i < n < |states| && Aborts(events[i]) && !ShutSince(events, i, n)
    requires states[n].pipe.current.None?
    requires |states[n].pipe.log.received| <= SIZE_MAX && ByAge(states[n].pipe.log.received + [m]) && Monotone(clock)
    ensures var s := states[n];
            && TcpClientRuns.Recovered(s, Step(s, Receive(m, clock)), s.pipe.queue + [m], clock)
            && Step(s, Receive(m, clock)).connects == s.connects
  {
    IdleIff(states, events, n);
    assert Opens(events[i]);
    RunInv(states, events, n);
    StepMovesLink(states[n], Receive(m, clock));
    TcpClientRuns.RunRecovers(states, events, n, Receive(m, clock));
  }

  /** The identifier check by itself, whatever the remote side sends: in every run, a well-formed reply is delivered if and only
      if it carries the number of the latest dispatch modulo 2^16, and then to the source of that dispatch. */
  lemma DeliveredIff(states: seq<State>, events: seq<Event>, n: nat)
    requires IsRun(states, events) && n < |events| && TcpClientRuns.Valid(events[n])
    ensures var log, t, e := states[n].pipe.log, states[n + 1].pipe.log, events[n];
            && e.read < |states[n].io.reading| && log.dispatched != []
            && t.delivered == log.delivered +
               if e.reply.transactionId == |log.dispatched| % ID_SPACE then
                 [Delivery(|log.dispatched| - 1,
                           Msg(log.dispatched[|log.dispatched| - 1].msg.info, states[n].io.reading[e.read].buffer),
                           e.reply.answers)]
               else []
  {
    RunInv(states, events, n);
    assert Follows(states, events, n);
    TcpClientRuns.StepDelivers(states[n], events[n]);
  }
}
