/** What every run of a slave makes of its events, with neither the record nor the step function in the statement. */
module SlaveRuns {
  import opened Messages
  import opened Slave

  /** The request that an event brings, as number n of this slave: one for every read that ended with data of a valid size and
      checksum while the exchange was alive. The TCP side keeps the identifier of the client, the serial side counts. */
  function RequestIn(id: ActorId, kind: Kind, n: nat, e: Event): seq<Info> {
    match e
    case ReadDone(_, true, Data, Request(true, true, frame), now, tag, _) =>
      [Info(now, false, id, if kind.Connection? then frame.transactionId else n % ID_SPACE, tag)]
    case _ => []
  }

  function RequestsIn(id: ActorId, kind: Kind, events: seq<Event>): seq<Info> {
    if events == [] then []
    else
      var front := RequestsIn(id, kind, events[..|events| - 1]);
      front + RequestIn(id, kind, |front| + 1, events[|events| - 1])
  }

  /** A slave in the middle of a run makes its requests that way. */
  lemma MakesRequest(s: State, e: Event)
    requires Slave.Inv(s) && e.ReadDone?
    ensures RequestIn(s.id, s.kind, |s.accepted| + 1, e) ==
            if Accepts(e) then [RequestInfo(s, e.request, e.now, e.tag)] else []
  {
    assert s.kind.Serial? ==> NextId(s.idGenerator) == (|s.accepted| + 1) % ID_SPACE;
  }

  lemma StepAccepts(s: State, e: Event)
    requires Slave.Inv(s) && Enabled(s, e)
    ensures var t := Step(s, e);
            && t.id == s.id && t.kind == s.kind
            && t.accepted == s.accepted + RequestIn(s.id, s.kind, |s.accepted| + 1, e)
  {
    assert s.accepted + [] == s.accepted;
    if e.ReadDone? {
      MakesRequest(s, e);
    }
  }

  /** Every run accepts exactly the requests in its events, in order, and a slave stays who and what it is. */
  lemma {:induction false} AcceptsExactly(states: seq<State>, events: seq<Event>, n: nat)
    requires IsRun(states, events) && n < |states|
    ensures states[n].id == states[0].id && states[n].kind == states[0].kind
    ensures states[n].accepted == RequestsIn(states[0].id, states[0].kind, events[..n])
  {
    hide Step, RequestIn;
    if n > 0 {
      AcceptsExactly(states, events, n - 1);
      RunInv(states, events, n - 1);
      assert Follows(states, events, n - 1);
      StepAccepts(states[n - 1], events[n - 1]);
      assert events[..n][..n - 1] == events[..n - 1];
    }
  }

  /** A response takes the latest accepted request: it is addressed to this slave, carries the identifier of that request, and
      no response has taken it yet. */
  predicate Takes(s: State, info: Info) {
    var last := |s.accepted| - 1;
    && s.accepted != []
    && (s.consumed == [] || s.consumed[|s.consumed| - 1].index < last)
    && info.sourceId == s.id
    && info.transactionId == s.accepted[last].transactionId
  }

  /** In every run of either kind, what a response does depends on these conditions alone: if it takes the latest request, the
      record is emptied, and the response is written exactly if it has a buffer; otherwise nothing changes. */
  lemma TakesIff(states: seq<State>, events: seq<Event>, n: nat)
    requires IsRun(states, events) && n < |events| && events[n].Receive?
    ensures var s, t, info, b := states[n], states[n + 1], events[n].info, events[n].response;
            if Takes(s, info) then
              && s.record == Some(s.accepted[|s.accepted| - 1]) && t.record == None
              && t.consumed == s.consumed + [Consumption(info, |s.accepted| - 1, b.Some?)]
              && t.writing == s.writing + (if b.Some? then [b.value] else [])
              && t == s.(record := t.record, consumed := t.consumed, writing := t.writing)
            else t == s
  {
    RunInv(states, events, n);
    assert Follows(states, events, n);
  }

  /** The buffer that the latest event allocated for a read. */
  function LatestBuffer(events: seq<Event>): nat {
    if events == [] then 0
    else
      match events[|events| - 1]
      case Start(b) => b
      case ReadDone(_, true, Data, _, _, _, b) => b
      case ReadDone(_, true, Error, _, _, _, b) => b
      case _ => LatestBuffer(events[..|events| - 1])
  }

  predicate StopsReading(e: Event) {
    e.ReadDone? && (!e.exchangeAlive || e.end.Closed?)
  }

  /** A slave started once has exactly one read pending, into the buffer allocated last, through invalid frames, errors and
      responses, until its line is gone or the exchange is. */
  lemma {:induction false} ReadsUntilClosed(states: seq<State>, events: seq<Event>, n: nat)
    requires IsRun(states, events) && 0 < n < |states|
    requires events[0].Start? && forall k :: 0 < k < n ==> !events[k].Start?
    ensures states[n].reading ==
            if exists k :: 0 <= k < n && StopsReading(events[k]) then [] else [LatestBuffer(events[..n])]
  {
    assert Follows(states, events, n - 1);
    assert events[..n][..n - 1] == events[..n - 1];
    if n > 1 {
      ReadsUntilClosed(states, events, n - 1);
    }
  }
}
