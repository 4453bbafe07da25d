/** The request pipeline that both masters contain: a queue, an expiry loop, one slot for the request on the wire, and a
    16-bit identifier counter. The two masters differ in when they move it, and in how they test a reply. */
module Pipeline {
  import opened LimitQueues
  import opened Messages

  /** What became of a received message when it left the queue, and the clock reading its expiry check used. */
  datatype Outcome = Evicted | TimedOut | Sent
  datatype Fate = Fate(outcome: Outcome, at: int)

  /** ModbusCurrentMessage: the request in the slot and the identifier it got. */
  datatype Current = Current(msg: Msg, id: TransactionId)

  /** A response handed to the exchange: the dispatch it is attributed to, the message, and the dispatch that the frame
      really answers, which only the remote side knows. */
  datatype Delivery = Delivery(index: int, msg: Msg, answers: int)

  /** Histories. `fates[i]` is the fate of `received[i]`. */
  datatype Log = Log(received: seq<Msg>, fates: seq<Fate>, dispatched: seq<Current>, delivered: seq<Delivery>)

  datatype Pipe = Pipe(queue: seq<Msg>, current: Option<Current>, idGenerator: TransactionId, log: Log)

  /** A frame that a read completed with: the outcomes of SetAduSize and Check, its contents, and which dispatch it
      answers. */
  datatype Reply = Reply(sizeOk: bool, checkOk: bool, transactionId: TransactionId, payload: Payload, answers: int)

  /** The k-th reading of the steady clock during one handler. */
  type Clock = nat -> int

  const EMPTY_PIPE := Pipe([], None, 0, Log([], [], [], []))

  function Enqueue(p: Pipe, m: Msg): Pipe {
    p.(queue := Pushed(p.queue, SIZE_MAX, m),
       log := p.log.(received := p.log.received + [m],
                     fates := if |p.queue| > SIZE_MAX then p.log.fates + [Fate(Evicted, 0)] else p.log.fates))
  }

  function Drop(p: Pipe, at: int): Pipe
    requires p.queue != []
  {
    p.(queue := p.queue[1..], log := p.log.(fates := p.log.fates + [Fate(TimedOut, at)]))
  }

  /** The expiry loop, its checks starting with clock reading k. */
  function DropExpired(p: Pipe, timeout: int, clock: Clock, k: nat): Pipe
    decreases |p.queue|
  {
    if p.queue == [] || !Expired(p.queue[0].info, timeout, clock(k)) then p
    else DropExpired(Drop(p, clock(k)), timeout, clock, k + 1)
  }

  /** The front of the queue moves into the empty slot under the next identifier. */
  function Dispatch(p: Pipe, at: int): Pipe
    requires p.queue != []
  {
    var id := NextId(p.idGenerator);
    var c := Current(p.queue[0], id);
    Pipe(p.queue[1..], Some(c), id,
         p.log.(fates := p.log.fates + [Fate(Sent, at)], dispatched := p.log.dispatched + [c]))
  }

  /** How many messages the expiry loop pops. */
  function ExpiredCount(queue: seq<Msg>, timeout: int, clock: Clock, k: nat): (n: nat)
    ensures n <= |queue|
    ensures n < |queue| ==> !Expired(queue[n].info, timeout, clock(k + n))
  {
    if queue == [] || !Expired(queue[0].info, timeout, clock(k)) then 0
    else 1 + ExpiredCount(queue[1..], timeout, clock, k + 1)
  }

  /** Both masters, with an empty slot: drop what expired, then start the first message left. */
  function Advance(p: Pipe, timeout: int, clock: Clock): Pipe {
    if p.queue == [] || p.current.Some? then p
    else
      var q := DropExpired(p, timeout, clock, 0);
      if q.queue == [] then q else Dispatch(q, clock(ExpiredCount(p.queue, timeout, clock, 0)))
  }

  function Free(p: Pipe): Pipe {
    p.(current := None)
  }

  /** MakeResponse of both masters; `accepted` is the verdict of the frame checks. A reply of an invalid size leaves the
      slot as it is, one that fails a check empties the slot without a delivery. */
  function Respond(p: Pipe, buffer: nat, reply: Reply, accepted: bool): Pipe {
    if p.current.None? || !reply.sizeOk then p
    else if !accepted then Free(p)
    else
      var d := Delivery(|p.log.dispatched| - 1, Msg(p.current.value.msg.info, buffer), reply.answers);
      Free(p).(log := p.log.(delivered := p.log.delivered + [d]))
  }

  /** The received messages of one outcome, in order. */
  function Selected(received: seq<Msg>, fates: seq<Fate>, outcome: Outcome): seq<Msg>
    requires |fates| <= |received|
  {
    if fates == [] then []
    else
      var last := |fates| - 1;
      Selected(received, fates[..last], outcome) + (if fates[last].outcome == outcome then [received[last]] else [])
  }

  function Requests(dispatched: seq<Current>): seq<Msg> {
    if dispatched == [] then []
    else Requests(dispatched[..|dispatched| - 1]) + [dispatched[|dispatched| - 1].msg]
  }

  /** Conservation, FIFO and numbering, for one pipeline with a given timeout. */
  ghost predicate Conserved(p: Pipe, timeout: int) {
    var l := p.log;
    // every received message is still queued, or has exactly one fate; messages leave oldest first
    && |l.fates| <= |l.received| && p.queue == l.received[|l.fates|..]
    // a message is dropped only if it was late at its check, and sent only if it was not
    && (forall i :: 0 <= i < |l.fates| ==> Justified(l.received[i].info, l.fates[i], timeout))
    // what went to the wire is what has the fate Sent, in order
    && Requests(l.dispatched) == Selected(l.received, l.fates, Sent)
    // under the identifiers 1, 2, 3, ... modulo 2^16
    && (forall k :: 0 <= k < |l.dispatched| ==> l.dispatched[k].id == (k + 1) % ID_SPACE)
    && p.idGenerator == |l.dispatched| % ID_SPACE
    // the slot holds the latest dispatch
    && (p.current.Some? ==> l.dispatched != [] && p.current.value == l.dispatched[|l.dispatched| - 1])
    && Attributed(p)
    && (forall i :: 0 <= i < |l.fates| && l.fates[i].outcome.Evicted? ==> |l.received| > SIZE_MAX + 1)
  }

  predicate Justified(info: Info, fate: Fate, timeout: int) {
    match fate.outcome
    case Evicted => true
    case TimedOut => Expired(info, timeout, fate.at)
    case Sent => !Expired(info, timeout, fate.at)
  }

  /** Deliveries are an order-preserving, at-most-once subsequence of the dispatches, each with the info of the dispatch
      it is attributed to; the one in the slot is not among them. */
  ghost predicate Attributed(p: Pipe) {
    var d, n := p.log.delivered, |p.log.dispatched|;
    && (forall j :: 0 <= j < |d| ==> 0 <= d[j].index < (if p.current.Some? then n - 1 else n))
    && (forall j :: 0 <= j < |d| ==> d[j].msg.info == p.log.dispatched[d[j].index].msg.info)
    && (forall i, j :: 0 <= i < j < |d| ==> d[i].index < d[j].index)
  }

  lemma {:induction false} SelectedExtends(received: seq<Msg>, fates: seq<Fate>, outcome: Outcome, m: Msg)
    requires |fates| <= |received|
    ensures Selected(received + [m], fates, outcome) == Selected(received, fates, outcome)
  {
    if fates != [] {
      SelectedExtends(received, fates[..|fates| - 1], outcome, m);
    }
  }

  lemma SelectedAppends(received: seq<Msg>, fates: seq<Fate>, outcome: Outcome, f: Fate)
    requires |fates| < |received|
    ensures Selected(received, fates + [f], outcome) ==
            Selected(received, fates, outcome) + (if f.outcome == outcome then [received[|fates|]] else [])
  {
    assert (fates + [f])[..|fates|] == fates;
  }

  lemma RequestsAppends(dispatched: seq<Current>, c: Current)
    ensures Requests(dispatched + [c]) == Requests(dispatched) + [c.msg]
  {
    assert (dispatched + [c])[..|dispatched|] == dispatched;
  }

  /** Evicted, timed out and sent messages together are the processed prefix: every message occurs there exactly as
      often as in the three selections together. */
  lemma {:induction false} FatesPartition(received: seq<Msg>, fates: seq<Fate>, m: Msg)
    requires |fates| <= |received|
    ensures multiset(received[..|fates|])[m] ==
            multiset(Selected(received, fates, Evicted))[m] + multiset(Selected(received, fates, TimedOut))[m]
            + multiset(Selected(received, fates, Sent))[m]
  {
    if fates != [] {
      var last := |fates| - 1;
      FatesPartition(received, fates[..last], m);
      assert |fates[..last]| == last && |fates| == last + 1;
      LastReceived(received, last, m);
      LastFate(received, fates, Evicted, m);
      LastFate(received, fates, TimedOut, m);
      LastFate(received, fates, Sent, m);
    }
  }

  lemma LastReceived(received: seq<Msg>, last: nat, m: Msg)
    requires last < |received|
    ensures multiset(received[..last + 1])[m] == multiset(received[..last])[m] + (if received[last] == m then 1 else 0)
  {
    assert received[..last + 1] == received[..last] + [received[last]];
  }

  lemma LastFate(received: seq<Msg>, fates: seq<Fate>, outcome: Outcome, m: Msg)
    requires 0 < |fates| <= |received|
    ensures multiset(Selected(received, fates, outcome))[m] ==
            multiset(Selected(received, fates[..|fates| - 1], outcome))[m] +
            (if fates[|fates| - 1].outcome == outcome && received[|fates| - 1] == m then 1 else 0)
  {
  }

  lemma EnqueueConserves(p: Pipe, timeout: int, m: Msg)
    requires Conserved(p, timeout)
    ensures Conserved(Enqueue(p, m), timeout)
  {
    var l := p.log;
    SelectedExtends(l.received, l.fates, Sent, m);
    if |p.queue| > SIZE_MAX {
      SelectedAppends(l.received + [m], l.fates, Sent, Fate(Evicted, 0));
    }
  }

  lemma DropConserves(p: Pipe, timeout: int, at: int)
    requires Conserved(p, timeout) && p.queue != [] && Expired(p.queue[0].info, timeout, at)
    ensures Conserved(Drop(p, at), timeout)
  {
    assert p.queue[0] == p.log.received[|p.log.fates|];
    SelectedAppends(p.log.received, p.log.fates, Sent, Fate(TimedOut, at));
  }

  lemma {:induction false} DropExpiredConserves(p: Pipe, timeout: int, clock: Clock, k: nat)
    requires Conserved(p, timeout)
    ensures Conserved(DropExpired(p, timeout, clock, k), timeout)
    decreases |p.queue|
  {
    if p.queue != [] && Expired(p.queue[0].info, timeout, clock(k)) {
      DropConserves(p, timeout, clock(k));
      DropExpiredConserves(Drop(p, clock(k)), timeout, clock, k + 1);
    }
  }

  lemma DispatchConserves(p: Pipe, timeout: int, at: int)
    requires Conserved(p, timeout) && p.current.None? && p.queue != [] && !Expired(p.queue[0].info, timeout, at)
    ensures Conserved(Dispatch(p, at), timeout)
  {
    hide Selected, Requests;
    assert p.queue[0] == p.log.received[|p.log.fates|];
    SelectedAppends(p.log.received, p.log.fates, Sent, Fate(Sent, at));
    RequestsAppends(p.log.dispatched, Dispatch(p, at).current.value);
  }

  lemma AdvanceConserves(p: Pipe, timeout: int, clock: Clock)
    requires Conserved(p, timeout)
    ensures Conserved(Advance(p, timeout, clock), timeout)
  {
    if p.queue != [] && p.current.None? {
      DropExpiredConserves(p, timeout, clock, 0);
      DropExpiredShape(p, timeout, clock, 0);
      var q := DropExpired(p, timeout, clock, 0);
      if q.queue != [] {
        DispatchConserves(q, timeout, clock(ExpiredCount(p.queue, timeout, clock, 0)));
      }
    }
  }

  lemma {:induction false} DropExpiredShape(p: Pipe, timeout: int, clock: Clock, k: nat)
    ensures var q := DropExpired(p, timeout, clock, k);
            && q.queue == p.queue[ExpiredCount(p.queue, timeout, clock, k)..]
            && q.current == p.current && q.idGenerator == p.idGenerator
            && q.log == p.log.(fates := q.log.fates)
    decreases |p.queue|
  {
    if p.queue != [] && Expired(p.queue[0].info, timeout, clock(k)) {
      DropExpiredShape(Drop(p, clock(k)), timeout, clock, k + 1);
    }
  }

  /** What Advance does to everything but the fates. */
  lemma AdvanceShape(p: Pipe, timeout: int, clock: Clock)
    ensures var n, q := ExpiredCount(p.queue, timeout, clock, 0), Advance(p, timeout, clock);
            && q.log.received == p.log.received && q.log.delivered == p.log.delivered
            && if p.queue == [] || p.current.Some? then q == p
               else if n == |p.queue| then
                 q.queue == [] && q.current.None? && q.log.dispatched == p.log.dispatched
               else
                 var c := Current(p.queue[n], NextId(p.idGenerator));
                 q.queue == p.queue[n + 1..] && q.current == Some(c) && q.log.dispatched == p.log.dispatched + [c]
  {
    DropExpiredShape(p, timeout, clock, 0);
  }

  lemma FreeConserves(p: Pipe, timeout: int)
    requires Conserved(p, timeout)
    ensures Conserved(Free(p), timeout)
  {
  }

  lemma RespondConserves(p: Pipe, timeout: int, buffer: nat, reply: Reply, accepted: bool)
    requires Conserved(p, timeout)
    ensures Conserved(Respond(p, buffer, reply, accepted), timeout)
  {
  }
}
