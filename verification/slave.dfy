/** The two accepting sides as one step machine: ModbusTcpConnection (modbus_tcp_connection.cpp) and ModbusRtuSlave
    (modbus_rtu_slave.cpp). They differ in where the transaction id of a request comes from, and in the frame type. */
module Slave {
  import opened Messages

  datatype Kind = Connection | Serial(frameType: FrameType)

  /** A response that matched the record and used it up: the info it carried, the position in `accepted` of the request
      whose record it used, and whether it had a buffer, so that a frame was written. */
  datatype Consumption = Consumption(info: Info, index: int, written: bool)

  datatype State = State(
    id: ActorId,
    kind: Kind,
    record: Option<Info>,        // syncRequestInfo_
    idGenerator: TransactionId,  // only used by Serial
    reading: seq<nat>,           // buffers of the pending reads
    writing: seq<nat>,           // buffers of the pending writes
    accepted: seq<Info>,
    consumed: seq<Consumption>)

  /** How a read ended: with data; by eof, reset or cancellation; with any other error. */
  datatype ReadEnd = Data | Closed | Error

  /** The frame a read completed with, and the outcomes of SetAduSize and Check on it. */
  datatype Request = Request(sizeOk: bool, checkOk: bool, frame: Frame)

  datatype Event =
    | Start(buffer: nat)
    | ReadDone(read: nat, exchangeAlive: bool, end: ReadEnd, request: Request, now: int, tag: nat, nextBuffer: nat)
    | Receive(info: Info, response: Option<nat>)
    | WriteDone(write: nat)

  function Init(id: ActorId, kind: Kind): State {
    State(id, kind, None, 0, [], [], [], [])
  }

  function TypeOf(kind: Kind): FrameType {
    match kind
    case Connection => TCP
    case Serial(t) => t
  }

  predicate Enabled(s: State, e: Event) {
    match e
    case Start(_) => true
    case ReadDone(i, _, _, _, _, _, _) => i < |s.reading|
    case Receive(_, _) => true
    case WriteDone(i) => i < |s.writing|
  }

  /** A read that yields a valid request. */
  predicate Accepts(e: Event) {
    e.ReadDone? && e.exchangeAlive && e.end.Data? && e.request.sizeOk && e.request.checkOk
  }

  /** The info of the request: the TCP side saves the client's own identifier, the serial side generates one. */
  function RequestInfo(s: State, request: Request, now: int, tag: nat): Info {
    Info(now, false, s.id, if s.kind.Connection? then request.frame.transactionId else NextId(s.idGenerator), tag)
  }

  /** A response is for this slave, and for the request on record. */
  predicate Matches(s: State, info: Info) {
    info.sourceId == s.id && s.record.Some? && s.record.value.transactionId == info.transactionId
  }

  function Without(s: seq<nat>, i: nat): seq<nat>
    requires i < |s|
  {
    s[..i] + s[i + 1..]
  }

  function Step(s: State, e: Event): State
    requires Enabled(s, e)
  {
    match e
    case Start(buffer) => s.(reading := s.reading + [buffer])
    case ReadDone(i, alive, end, request, now, tag, nextBuffer) =>
      var t := s.(reading := Without(s.reading, i));
      if !alive || end.Closed? then t
      else
        var u := t.(reading := t.reading + [nextBuffer]);
        if end.Error? || !request.sizeOk || !request.checkOk then u
        else
          var info := RequestInfo(s, request, now, tag);
          u.(record := Some(info), accepted := s.accepted + [info],
             idGenerator := if s.kind.Serial? then NextId(s.idGenerator) else s.idGenerator)
    case Receive(info, buffer) =>
      if !Matches(s, info) then s
      else
        var c := Consumption(info, |s.accepted| - 1, buffer.Some?);
        var t := s.(record := None, consumed := s.consumed + [c]);
        if buffer.Some? then t.(writing := s.writing + [buffer.value]) else t
    case WriteDone(i) => s.(writing := Without(s.writing, i))
  }

  ghost predicate IsRun(states: seq<State>, events: seq<Event>) {
    && |states| == |events| + 1
    && (exists id, kind :: states[0] == Init(id, kind))
    && (forall k :: 0 <= k < |events| ==> Follows(states, events, k))
  }

  /** The k-th event of a run is possible in the state before it and leads to the state after it. */
  ghost predicate Follows(states: seq<State>, events: seq<Event>, k: nat)
    requires |states| == |events| + 1 && k < |events|
  {
    Enabled(states[k], events[k]) && states[k + 1] == Step(states[k], events[k])
  }

  /** The record is empty, or it is the info of the most recently accepted request; and it is that exactly until a response
      uses it up. Each response used up the record of the request that was the latest then, with the same identifier, so
      two of them always have an accepted request between them. */
  ghost predicate Inv(s: State) {
    var n, c := |s.accepted|, s.consumed;
    && (s.record.Some? ==> n > 0 && s.record.value == s.accepted[n - 1])
    && (s.record.Some? <==> n > 0 && (c == [] || c[|c| - 1].index < n - 1))
    && (forall i :: 0 <= i < n ==> s.accepted[i].sourceId == s.id)
    && (forall j :: 0 <= j < |c| ==>
          && 0 <= c[j].index < n
          && c[j].info.sourceId == s.id
          && c[j].info.transactionId == s.accepted[c[j].index].transactionId)
    && (forall i, j :: 0 <= i < j < |c| ==> c[i].index < c[j].index)
    && (s.kind.Serial? ==> Numbered(s))
  }

  /** The serial side numbers its requests 1, 2, 3, ... modulo 2^16. */
  ghost predicate Numbered(s: State) {
    && s.idGenerator == |s.accepted| % ID_SPACE
    && forall i :: 0 <= i < |s.accepted| ==> s.accepted[i].transactionId == (i + 1) % ID_SPACE
  }

  lemma StepKeepsInv(s: State, e: Event)
    requires Inv(s) && Enabled(s, e)
    ensures Inv(Step(s, e))
  {
    match e
    case Start(_) =>
    case ReadDone(_, _, _, _, _, _, _) =>
      if Accepts(e) {
        AcceptKeepsInv(s, e);
      }
    case Receive(info, response) =>
      if Matches(s, info) {
        ConsumeKeepsInv(s, info, response);
      }
    case WriteDone(_) =>
  }

  lemma AcceptKeepsInv(s: State, e: Event)
    requires Inv(s) && Enabled(s, e) && Accepts(e)
    ensures Inv(Step(s, e))
  {
    hide Enabled, Matches;
    var t, info := Step(s, e), RequestInfo(s, e.request, e.now, e.tag);
    assert t.accepted == s.accepted + [info] && t.record == Some(info);
    assert t.consumed == s.consumed;
    if s.kind.Serial? {
      assert info.transactionId == (|s.accepted| + 1) % ID_SPACE;
    }
  }

  lemma ConsumeKeepsInv(s: State, info: Info, response: Option<nat>)
    requires Inv(s) && Matches(s, info)
    ensures Inv(Step(s, Receive(info, response)))
  {
  }

  lemma {:induction false} RunInv(states: seq<State>, events: seq<Event>, n: nat)
    requires IsRun(states, events) && n < |states|
    ensures Inv(states[n])
  {
    hide Step;
    if n > 0 {
      RunInv(states, events, n - 1);
      assert Follows(states, events, n - 1);
      StepKeepsInv(states[n - 1], events[n - 1]);
    }
  }

  /** Appending an enabled step to a run gives a run. */
  lemma RunExtends(states: seq<State>, events: seq<Event>, e: Event)
    requires IsRun(states, events) && Enabled(states[|events|], e)
    ensures IsRun(states + [Step(states[|events|], e)], events + [e])
  {
    hide Step, Enabled;
    var states', events' := states + [Step(states[|events|], e)], events + [e];
    assert states'[0] == states[0];
    forall k | 0 <= k < |events'| ensures Follows(states', events', k) {
      if k < |events| {
        assert Follows(states, events, k);
      }
    }
  }

  /** A response changes something if and only if it is addressed to this slave and carries the identifier of the record, and
      nothing else is asked of it; in particular a reply to a superseded request with another identifier is dropped. */
  lemma DroppedUnlessMatching(s: State, info: Info, buffer: Option<nat>)
    ensures var t := Step(s, Receive(info, buffer));
            var matches := s.record.Some? && s.record.value.transactionId == info.transactionId && s.id == info.sourceId;
            && (t == s <==> !matches)
            && (t.record.None? <==> s.record.None? || matches)
            && (|t.writing| > |s.writing| <==> matches && buffer.Some?)
  {
    if Matches(s, info) {
      assert |Step(s, Receive(info, buffer)).consumed| == |s.consumed| + 1;
    }
  }

  /** The serial side numbers its requests itself, so a response uses the record of the very request it was made for,
      unless 2^16 requests or more have been accepted since; at exactly 2^16 it would take the wrong one. */
  lemma SerialConsumesOwnRecord(states: seq<State>, events: seq<Event>, n: nat, k: nat)
    requires IsRun(states, events) && n < |events| && states[n].kind.Serial? && k < |states[n].accepted|
    requires events[n].Receive? && events[n].info == states[n].accepted[k]
    ensures var last := |states[n].accepted| - 1;
            && (Matches(states[n], events[n].info) <==>
                states[n].record.Some? && (last - k) % ID_SPACE == 0)
            && (last - k < ID_SPACE && Matches(states[n], events[n].info) ==>
                  k == last && states[n + 1].consumed == states[n].consumed +
                               [Consumption(events[n].info, k, events[n].response.Some?)])
  {
    RunInv(states, events, n);
    assert Follows(states, events, n);
    var s := states[n];
    var last := |s.accepted| - 1;
    assert s.accepted[k].transactionId == (k + 1) % ID_SPACE;
    assert s.accepted[last].transactionId == (last + 1) % ID_SPACE;
    CongruentIff(last + 1, k + 1);
  }
}
