/** Runs of the whole gateway: one in which all hypotheses of the end-to-end guarantee hold and a response is written, and runs
    in which a transaction id, or an actor id, is used again while a request is outstanding. */
module GatewayWitnesses {
  import opened Messages
  import opened Pipeline
  import opened PendingIo
  import opened Masters
  import opened Gateway
  import GatewayEndToEnd
  import GatewayExact
  import RtuMaster
  import Slave

  const NOON: Clock := _ => 0

  /** Two requests of actor 1 under the same transaction id. */
  const FIRST := Info(0, false, 1, 7, 0)
  const SECOND := Info(0, false, 1, 7, 1)

  const ASK := Frame(TCP, 0, [], 7)
  const ANSWER := Reply(true, true, 0, Payload(0, []), 0)

  /** One RTU master, and every unit id in use routed to it. */
  function Empty(): System {
    System(map[], map[0 := Rtu(RtuMaster.Init(10), RTU)], [0], [], map[], 0, [], [], map[], map[], [])
  }

  // ---------- runs ----------

  lemma Extend(states: seq<System>, events: seq<Gateway.Event>, e: Gateway.Event)
    returns (states': seq<System>, events': seq<Gateway.Event>)
    requires IsRun(states, events) && Gateway.Enabled(states[|events|], e)
    ensures IsRun(states', events') && events' == events + [e] && states <= states' && |states'| == |states| + 1
    ensures states'[|events'|] == Gateway.Step(states[|events|], e)
  {
    hide Gateway.Step, Gateway.Enabled;
    events' := events + [e];
    states' := states + [Gateway.Step(states[|events|], e)];
    forall k | 0 <= k < |events'| ensures Follows(states', events', k) {
      if k < |events| {
        assert Follows(states, events, k);
      }
    }
  }

  /** A run with a sound remote side in which nothing has been answered yet. */
  ghost predicate Quiet(states: seq<System>, events: seq<Gateway.Event>) {
    && IsRun(states, events)
    && forall k :: 0 <= k < |events| ==> QuietStep(states[k], events[k])
  }

  ghost predicate QuietStep(s: System, e: Gateway.Event) {
    GatewayEndToEnd.RepliesSound(s, e) && !GatewayExact.Answers(s, e)
  }

  lemma ExtendQuietly(states: seq<System>, events: seq<Gateway.Event>, e: Gateway.Event)
    returns (states': seq<System>, events': seq<Gateway.Event>)
    requires Quiet(states, events) && Gateway.Enabled(states[|events|], e) && QuietStep(states[|events|], e)
    ensures Quiet(states', events') && |events'| == |events| + 1
    ensures states'[|events'|] == Gateway.Step(states[|events|], e)
  {
    states', events' := Extend(states, events, e);
    forall k | 0 <= k < |events'| ensures QuietStep(states'[k], events'[k]) {
      assert states'[k] == states[k];
    }
  }

  // ---------- asking ----------

  /** The master is at rest, and a TCP connection is actor 1, reading into `buffer`. */
  ghost predicate Reading(s: System, incarnation: nat, buffer: nat) {
    && s.masters == Empty().masters && s.route == [0] && s.births == incarnation + 1 && s.written == []
    && (forall b :: b in s.heap ==> b <= buffer)
    && s.slaves.Keys == {1} && s.slaves[1].incarnation == incarnation
    && var v := s.slaves[1].slave;
       v.id == 1 && v.kind.Connection? && v.reading == [buffer] && v.writing == []
  }

  function Asks(tag: nat, nextBuffer: nat): Gateway.Event {
    SlaveRead(1, Slave.ReadDone(0, true, Slave.Data, Slave.Request(true, true, ASK), 0, tag, nextBuffer))
  }

  lemma AskOnce(s: System, incarnation: nat, buffer: nat, tag: nat)
    requires Reading(s, incarnation, buffer) && tag == |s.accepted|
    ensures Gateway.Enabled(s, Asks(tag, buffer + 1))
    ensures var t, info := Gateway.Step(s, Asks(tag, buffer + 1)), Info(0, false, 1, 7, tag);
            && Reading(t, incarnation, buffer + 1) && t.slaves[1].slave.record == Some(info)
            && t.accepted == s.accepted + [Accepted(info, Slave.Connection, incarnation, ASK)]
            && t.mail == s.mail + [Envelope(0, Msg(info, buffer))]
            && buffer in t.heap
  {
  }

  lemma Joins(s: System, buffer: nat)
    requires s.slaves == map[] && s.masters == Empty().masters && s.route == [0] && s.written == []
    requires forall b :: b in s.heap ==> b < buffer
    ensures Gateway.Enabled(s, Join(1, Slave.Connection, buffer))
    ensures var t := Gateway.Step(s, Join(1, Slave.Connection, buffer));
            Reading(t, s.births, buffer) && t.accepted == s.accepted && t.mail == s.mail
            && (forall b :: b in s.heap ==> b in t.heap)
  {
  }

  ghost predicate Asked(s: System) {
    && Reading(s, 0, 1) && s.slaves[1].slave.record == Some(FIRST)
    && s.accepted == [Accepted(FIRST, Slave.Connection, 0, ASK)]
    && s.mail == [Envelope(0, Msg(FIRST, 0))] && 0 in s.heap
  }

  lemma JoinFirst() returns (states: seq<System>, events: seq<Gateway.Event>)
    ensures Quiet(states, events)
    ensures var s := states[|events|]; Reading(s, 0, 0) && s.accepted == [] && s.mail == []
  {
    states, events := [Empty()], [];
    Joins(states[0], 0);
    states, events := ExtendQuietly(states, events, Join(1, Slave.Connection, 0));
  }

  /** The first connection asks. */
  lemma AskFirst() returns (states: seq<System>, events: seq<Gateway.Event>)
    ensures Quiet(states, events) && Asked(states[|events|])
  {
    hide Reading;
    states, events := JoinFirst();
    AskOnce(states[|events|], 0, 0, 0);
    states, events := ExtendQuietly(states, events, Asks(0, 1));
  }

  /** It leaves, and a second one gets its actor id. */
  lemma Rejoin(states: seq<System>, events: seq<Gateway.Event>)
    returns (states': seq<System>, events': seq<Gateway.Event>)
    requires Quiet(states, events) && Asked(states[|events|])
    ensures Quiet(states', events')
    ensures var s, t := states[|events|], states'[|events'|];
            Reading(t, 1, 2) && t.accepted == s.accepted && t.mail == s.mail && 0 in t.heap
  {
    states', events' := ExtendQuietly(states, events, Leave(1));
    assert states'[|events'|].slaves.Keys == {};
    Joins(states'[|events'|], 2);
    states', events' := ExtendQuietly(states', events', Join(1, Slave.Connection, 2));
  }

  /** The first of n accepted requests is the next letter; the slave of the given incarnation has `record` on record. */
  ghost predicate Mailed(s: System, n: nat, incarnation: nat, record: Info) {
    && s.masters == Empty().masters && Waits(s, n, incarnation, record)
    && s.mail != [] && s.mail[0] == Envelope(0, Msg(FIRST, 0)) && 0 in s.heap && 9 !in s.heap
  }

  ghost predicate Waits(s: System, n: nat, incarnation: nat, record: Info) {
    && 1 in s.slaves && s.slaves[1].incarnation == incarnation
    && s.slaves[1].slave.id == 1 && s.slaves[1].slave.kind.Connection? && s.slaves[1].slave.record == Some(record)
    && |s.accepted| == n > 0 && s.accepted[0].info == FIRST && s.accepted[0].incarnation == 0
    && s.written == [] && 1 !in s.masters
  }

  lemma AskTwice(rejoin: bool) returns (states: seq<System>, events: seq<Gateway.Event>)
    ensures Quiet(states, events) && Mailed(states[|events|], 2, if rejoin then 1 else 0, SECOND)
  {
    states, events := AskFirst();
    if rejoin {
      states, events := Rejoin(states, events);
    }
    var buffer := if rejoin then 2 else 1;
    AskOnce(states[|events|], if rejoin then 1 else 0, buffer, 1);
    states, events := ExtendQuietly(states, events, Asks(1, buffer + 1));
  }

  // ---------- answering ----------

  /** The first request is in the slot of the master. */
  ghost predicate InSlot(m: Master) {
    m.Rtu? && m.rtu.pipe.current.Some? && m.rtu.pipe.current.value.msg == Msg(FIRST, 0)
    && Count(m.rtu.io) == 1 && m.rtu.pipe.queue == [] && |m.rtu.pipe.log.dispatched| == 1
  }

  lemma MasterSends(s: System, n: nat, incarnation: nat, record: Info)
    requires Mailed(s, n, incarnation, record)
    ensures var t := Gateway.Step(s, Deliver(0, NOON));
            && QuietStep(s, Deliver(0, NOON))
            && Waits(t, n, incarnation, record) && 9 !in t.heap
            && 0 in t.masters && InSlot(t.masters[0]) && |t.masters[0].rtu.io.writing| == 1
  {
  }

  lemma MasterReads(s: System, n: nat, incarnation: nat, record: Info)
    requires Waits(s, n, incarnation, record) && 9 !in s.heap
    requires 0 in s.masters && InSlot(s.masters[0]) && |s.masters[0].rtu.io.writing| == 1
    ensures var e := MasterDone(0, RtuEvent(RtuMaster.WriteDone(0, Ok, 9)));
            && Gateway.Enabled(s, e) && QuietStep(s, e)
            && var t := Gateway.Step(s, e);
               && Waits(t, n, incarnation, record) && 9 in t.heap
               && 0 in t.masters && InSlot(t.masters[0])
               && |t.masters[0].rtu.io.reading| == 1 && t.masters[0].rtu.io.reading[0].buffer == 9
  {
  }

  lemma MasterAnswers(s: System, n: nat, incarnation: nat, record: Info)
    requires Waits(s, n, incarnation, record) && 9 in s.heap && 0 in s.masters && InSlot(s.masters[0])
    requires |s.masters[0].rtu.io.reading| == 1 && s.masters[0].rtu.io.reading[0].buffer == 9
    ensures var e := MasterDone(0, RtuEvent(RtuMaster.ReadDone(0, true, Ok, ANSWER, NOON)));
            && Gateway.Enabled(s, e) && QuietStep(s, e)
            && var t := Gateway.Step(s, e);
               Waits(t, n, incarnation, record) && 9 in t.heap && t.mail == s.mail + [Envelope(1, Msg(FIRST, 9))]
  {
  }

  lemma SlaveWrites(s: System, n: nat, incarnation: nat, record: Info, i: nat)
    requires Waits(s, n, incarnation, record) && record.transactionId == FIRST.transactionId
    requires 9 in s.heap && i < |s.mail| && s.mail[i] == Envelope(1, Msg(FIRST, 9))
    ensures var t := Gateway.Step(s, Deliver(i, NOON));
            && t.accepted == s.accepted && |t.written| == 1
            && t.written[0].info == FIRST && t.written[0].consumed == record && t.written[0].incarnation == incarnation
  {
  }

  /** The response to the first request is the last letter. */
  ghost predicate FirstAnswered(s: System, n: nat, incarnation: nat, record: Info) {
    Waits(s, n, incarnation, record) && 9 in s.heap && s.mail != [] && s.mail[|s.mail| - 1] == Envelope(1, Msg(FIRST, 9))
  }

  /** The request is on the wire, and the read of its reply is pending. */
  ghost predicate ReplyPending(s: System, n: nat, incarnation: nat, record: Info) {
    && Waits(s, n, incarnation, record) && 9 in s.heap && 0 in s.masters && InSlot(s.masters[0])
    && |s.masters[0].rtu.io.reading| == 1 && s.masters[0].rtu.io.reading[0].buffer == 9
  }

  lemma SendRequest(states: seq<System>, events: seq<Gateway.Event>, n: nat, incarnation: nat, record: Info)
    returns (states': seq<System>, events': seq<Gateway.Event>)
    requires Quiet(states, events) && Mailed(states[|events|], n, incarnation, record)
    ensures Quiet(states', events') && ReplyPending(states'[|events'|], n, incarnation, record)
  {
    MasterSends(states[|events|], n, incarnation, record);
    states', events' := ExtendQuietly(states, events, Deliver(0, NOON));
    MasterReads(states'[|events'|], n, incarnation, record);
    states', events' := ExtendQuietly(states', events', MasterDone(0, RtuEvent(RtuMaster.WriteDone(0, Ok, 9))));
  }

  lemma AnswerFirst(states: seq<System>, events: seq<Gateway.Event>, n: nat, incarnation: nat, record: Info)
    returns (states': seq<System>, events': seq<Gateway.Event>)
    requires Quiet(states, events) && Mailed(states[|events|], n, incarnation, record)
    ensures Quiet(states', events') && FirstAnswered(states'[|events'|], n, incarnation, record)
  {
    states', events' := SendRequest(states, events, n, incarnation, record);
    MasterAnswers(states'[|events'|], n, incarnation, record);
    states', events' := ExtendQuietly(
      states', events', MasterDone(0, RtuEvent(RtuMaster.ReadDone(0, true, Ok, ANSWER, NOON))));
  }

  /** The response is delivered: the last step of each run below. */
  lemma DeliverLast(states: seq<System>, events: seq<Gateway.Event>, n: nat, incarnation: nat, record: Info)
    returns (states': seq<System>, events': seq<Gateway.Event>)
    requires Quiet(states, events) && FirstAnswered(states[|events|], n, incarnation, record)
    requires record.transactionId == FIRST.transactionId
    ensures IsRun(states', events') && |events'| == |events| + 1
    ensures forall k :: 0 <= k < |events'| ==> GatewayEndToEnd.RepliesSound(states'[k], events'[k])
    ensures forall k :: 0 <= k < |events| ==> !GatewayExact.Answers(states'[k], events'[k])
    ensures states'[|events|] == states[|events|]
    ensures events'[|events|] == Deliver(|states[|events|].mail| - 1, NOON)
    ensures var t := states'[|events'|];
            && t.accepted == states[|events|].accepted && |t.written| == 1
            && t.written[0].info == FIRST && t.written[0].consumed == record && t.written[0].incarnation == incarnation
  {
    var last := |states[|events|].mail| - 1;
    SlaveWrites(states[|events|], n, incarnation, record, last);
    states', events' := Extend(states, events, Deliver(last, NOON));
    forall k | 0 <= k < |events'|
      ensures GatewayEndToEnd.RepliesSound(states'[k], events'[k])
      ensures k < |events| ==> !GatewayExact.Answers(states'[k], events'[k])
    {
      assert states'[k] == states[k];
      if k < |events| {
        assert QuietStep(states[k], events[k]);
      }
    }
  }

  /** All hypotheses of GatewayEndToEnd.EndToEnd can hold in a run that writes a frame. */
  lemma AnsweredEndToEnd() returns (states: seq<System>, events: seq<Gateway.Event>)
    ensures IsRun(states, events) && |states[|events|].written| == 1
    ensures forall k :: 0 <= k < |events| ==>
              && GatewayEndToEnd.RepliesSound(states[k], events[k])
              && !GatewayExact.SupersededAnswer(states[k], events[k])
  {
    states, events := AskFirst();
    states, events := AnswerFirst(states, events, 1, 0, FIRST);
    states, events := DeliverLast(states, events, 1, 0, FIRST);
    var n := |events| - 1;
    assert |states[n].accepted| == 1 && states[n].mail[events[n].index].msg.info == FIRST;
  }

  /** Although the remote side answers every request in time, the response to a request is written as the response to a later
      one when a transaction id is used again; and if moreover an actor id is, it is written by a slave that never accepted the
      request. */
  lemma ReusedIdsAreConfused(rejoin: bool) returns (states: seq<System>, events: seq<Gateway.Event>)
    ensures IsRun(states, events)
    ensures forall k :: 0 <= k < |events| ==> GatewayEndToEnd.RepliesSound(states[k], events[k])
    ensures var s := states[|events|];
            && |s.written| == 1 && s.written[0].info.tag == 0 && s.written[0].consumed.tag == 1
            && |s.accepted| == 2
            && (s.accepted[0].incarnation == s.written[0].incarnation <==> !rejoin)
  {
    states, events := AskTwice(rejoin);
    var incarnation := if rejoin then 1 else 0;
    states, events := AnswerFirst(states, events, 2, incarnation, SECOND);
    states, events := DeliverLast(states, events, 2, incarnation, SECOND);
  }
}
