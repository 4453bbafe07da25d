/** Which request a response is for, when actor ids and transaction ids may be used again. */
module GatewayIdentity {
  import opened Messages
  import opened Pipeline
  import opened Masters
  import opened Gateway
  import opened GatewayInvariant
  import GatewaySteps
  import Slave

  /** The info of some message that is in the mail or held by a master. */
  ghost predicate Live(s: System, info: Info) {
    || (exists i :: 0 <= i < |s.mail| && s.mail[i].msg.info == info)
    || (exists id :: id in s.masters && HeldInfo(s.masters[id], info))
  }

  ghost predicate HeldInfo(m: Master, info: Info) {
    exists x :: x in Held(PipeOf(m)) && x.info == info
  }

  /** Actor ids are not given to a new slave while messages with that source are outstanding. */
  ghost predicate NoReuse(s: System, e: Gateway.Event) {
    e.Join? ==> forall info :: Live(s, info) ==> info.sourceId != e.id
  }

  /** The info a slave would make for the request it reads. */
  function NewInfo(s: System, e: Gateway.Event): Info
    requires Gateway.Enabled(s, e) && e.SlaveRead?
  {
    Slave.RequestInfo(s.slaves[e.id].slave, e.read.request, e.read.now, e.read.tag)
  }

  /** No request is accepted under a transaction id that an outstanding message of the same slave still carries. */
  ghost predicate FreshTransactionId(s: System, e: Gateway.Event)
    requires Gateway.Enabled(s, e)
  {
    e.SlaveRead? && Slave.Accepts(e.read) ==>
      forall info :: Live(s, info) && info.sourceId == e.id ==> info.transactionId != NewInfo(s, e).transactionId
  }

  lemma MasterStepLive(s: System, pl: Places, id: ActorId, e: Masters.Event, info: Info)
    requires GatewaySteps.MasterEnabled(s, pl, id, e) && Live(MasterStep(s, id, e), info)
    ensures Live(s, info) || exists x :: x in Incoming(e) && x.info == info
  {
    assert MasterOk(s, pl, id);
    StepFlows(s.masters[id], e);
    EffectLive(s, id, Incoming(e), EffectOf(s.masters[id], e), info);
  }

  lemma EffectLive(s: System, id: ActorId, incoming: seq<Msg>, o: Effect, info: Info)
    requires id in s.masters && Keeps(Held(PipeOf(s.masters[id])) + incoming, Held(PipeOf(o.master)))
    requires o.response.Some? ==>
               var c := PipeOf(s.masters[id]).current; c.Some? && c.value.msg.info == o.response.value.info
    requires Live(MasterEffect(s, id, o), info)
    ensures Live(s, info) || exists x :: x in incoming && x.info == info
  {
    var m, t := s.masters[id], MasterEffect(s, id, o);
    if HeldInfo(o.master, info) {
      var x :| x in Held(PipeOf(o.master)) && x.info == info;
      assert x in Held(PipeOf(m)) + incoming;
      assert x in Held(PipeOf(m)) ==> HeldInfo(m, info);
    } else if other :| other in t.masters && HeldInfo(t.masters[other], info) {
      assert s.masters[other] == t.masters[other];
    } else {
      var i :| 0 <= i < |t.mail| && t.mail[i].msg.info == info;
      if i < |s.mail| {
        assert s.mail[i] == t.mail[i];
      } else {
        assert Held(PipeOf(m))[0] == PipeOf(m).current.value.msg;
        assert HeldInfo(m, info);
      }
    }
  }

  lemma TakeLive(s: System, i: nat, info: Info)
    requires i < |s.mail| && Live(GatewaySteps.Take(s, i), info)
    ensures Live(s, info)
  {
    var t := GatewaySteps.Take(s, i);
    if id :| id in t.masters && HeldInfo(t.masters[id], info) {
      assert HeldInfo(s.masters[id], info);
    } else {
      var k :| 0 <= k < |t.mail| && t.mail[k].msg.info == info;
      assert s.mail[if k < i then k else k + 1] == t.mail[k];
    }
  }

  /** Nothing becomes live but the request a slave accepts. */
  lemma StepLive(s: System, pl: Places, e: Gateway.Event, info: Info)
    requires GatewayInvariant.Inv(s, pl) && Gateway.Enabled(s, e) && Live(Gateway.Step(s, e), info)
    ensures Live(s, info) || (e.SlaveRead? && Slave.Accepts(e.read) && info == NewInfo(s, e))
  {
    hide MasterStep, Masters.Step, Masters.Inv;
    match e
    case Join(_, _, _) => SameLive(s, Gateway.Step(s, e), info);
    case Leave(_) => SameLive(s, Gateway.Step(s, e), info);
    case SlaveWrote(_, _) => SameLive(s, Gateway.Step(s, e), info);
    case SlaveRead(id, r) => ReadLive(s, e, info);
    case Deliver(i, clock) => DeliverLive(s, pl, i, clock, info);
    case MasterDone(id, done) =>
      GatewaySteps.DoneIsEnabled(s, pl, id, done);
      MasterStepLive(s, pl, id, done, info);
  }

  lemma SameLive(s: System, t: System, info: Info)
    requires t.mail == s.mail && t.masters == s.masters && Live(t, info)
    ensures Live(s, info)
  {
  }

  lemma ReadLive(s: System, e: Gateway.Event, info: Info)
    requires Gateway.Enabled(s, e) && e.SlaveRead? && Live(Gateway.Step(s, e), info)
    ensures Live(s, info) || (Slave.Accepts(e.read) && info == NewInfo(s, e))
  {
    var t := Gateway.Step(s, e);
    if id :| id in t.masters && HeldInfo(t.masters[id], info) {
      assert HeldInfo(s.masters[id], info);
    } else {
      var i :| 0 <= i < |t.mail| && t.mail[i].msg.info == info;
      if i < |s.mail| {
        assert s.mail[i] == t.mail[i];
      }
    }
  }

  lemma DeliverLive(s: System, pl: Places, i: nat, clock: Clock, info: Info)
    requires GatewayInvariant.Inv(s, pl) && i < |s.mail| && Live(Gateway.Step(s, Deliver(i, clock)), info)
    ensures Live(s, info)
  {
    var t := GatewaySteps.Take(s, i);
    if s.mail[i].to in s.masters {
      DeliverToMasterLive(s, pl, i, clock, info);
    } else {
      DeliverElsewhere(s, i, clock);
      SameLive(t, Gateway.Step(s, Deliver(i, clock)), info);
      TakeLive(s, i, info);
    }
  }

  lemma DeliverElsewhere(s: System, i: nat, clock: Clock)
    requires i < |s.mail| && s.mail[i].to !in s.masters
    ensures var t := Gateway.Step(s, Deliver(i, clock));
            t.mail == GatewaySteps.Take(s, i).mail && t.masters == s.masters
  {
  }

  lemma DeliverToMasterLive(s: System, pl: Places, i: nat, clock: Clock, info: Info)
    requires GatewayInvariant.Inv(s, pl) && i < |s.mail| && s.mail[i].to in s.masters
    requires Live(Gateway.Step(s, Deliver(i, clock)), info)
    ensures Live(s, info)
  {
    var id, t := s.mail[i].to, GatewaySteps.Take(s, i);
    var e := Receive(s.masters[id], s.mail[i].msg, clock);
    GatewaySteps.DeliverToMasterIsEnabled(s, pl, i, clock);
    GatewaySteps.ReceiveIsEnabled(s.masters[id], s.mail[i].msg, clock);
    GatewaySteps.DeliverIsReceive(s, i, clock);
    TakenStepLive(s, GatewaySteps.Taken(pl, s.mail[i].msg, AtMaster(id), AtMaster(id)), i, id, e, info);
  }

  lemma TakenStepLive(s: System, pl: Places, i: nat, id: ActorId, e: Masters.Event, info: Info)
    requires i < |s.mail| && Incoming(e) == [s.mail[i].msg]
    requires GatewaySteps.MasterEnabled(GatewaySteps.Take(s, i), pl, id, e)
    requires Live(MasterStep(GatewaySteps.Take(s, i), id, e), info)
    ensures Live(s, info)
  {
    MasterStepLive(GatewaySteps.Take(s, i), pl, id, e, info);
    if Live(GatewaySteps.Take(s, i), info) {
      TakeLive(s, i, info);
    } else {
      assert s.mail[i].msg.info == info;
    }
  }

  // ---------- the same slave ----------

  /** Every outstanding message belongs to the slave that has its source id now, if any; every frame was written by the
      very slave that accepted the request. */
  ghost predicate Homed(s: System) {
    && (forall info :: Live(s, info) ==> InfoHomed(s, info))
    && (forall k :: 0 <= k < |s.written| ==> WrittenHome(s, s.written[k]))
  }

  ghost predicate InfoHomed(s: System, info: Info) {
    info.tag < |s.accepted| && info.sourceId in s.slaves ==>
      s.slaves[info.sourceId].incarnation == s.accepted[info.tag].incarnation
  }

  ghost predicate WrittenHome(s: System, w: Written) {
    w.info.tag < |s.accepted| ==> s.accepted[w.info.tag].incarnation == w.incarnation
  }

  /** What a step can write: only a delivery to a slave writes, and it writes the message delivered. */
  lemma StepWrites(s: System, pl: Places, e: Gateway.Event)
    requires SlavesOk(s, pl) && Gateway.Enabled(s, e)
    ensures var t := Gateway.Step(s, e);
            && s.accepted <= t.accepted
            && (t.written != s.written ==>
                  && e.Deliver? && s.mail[e.index].to in s.slaves && |t.written| == |s.written| + 1
                  && s.written <= t.written
                  && var w, p := t.written[|s.written|], s.slaves[s.mail[e.index].to];
                     && w.info == s.mail[e.index].msg.info && w.info.sourceId == s.mail[e.index].to
                     && w.incarnation == p.incarnation && p.slave.record == Some(w.consumed)
                     && w.info.transactionId == w.consumed.transactionId)
  {
    if e.Deliver? && s.mail[e.index].to !in s.masters && s.mail[e.index].to in s.slaves {
      assert SlaveOk(s, pl, s.mail[e.index].to);
      GatewaySteps.DeliverIsSlaveReceive(s, e.index, e.clock);
      ReceiveWrites(GatewaySteps.Take(s, e.index), s.mail[e.index].to, s.mail[e.index].msg);
    } else {
      OthersWriteNothing(s, e);
    }
  }

  lemma OthersWriteNothing(s: System, e: Gateway.Event)
    requires Gateway.Enabled(s, e)
    requires e.Deliver? ==> s.mail[e.index].to in s.masters || s.mail[e.index].to !in s.slaves
    ensures s.accepted <= Gateway.Step(s, e).accepted && Gateway.Step(s, e).written == s.written
  {
    if e.Deliver? && s.mail[e.index].to in s.masters {
      GatewaySteps.DeliverIsReceive(s, e.index, e.clock);
    }
  }

  lemma ReceiveWrites(s: System, id: ActorId, m: Msg)
    requires id in s.slaves && s.slaves[id].slave.id == id
    ensures var t := SlaveReceive(s, id, m);
            && t.accepted == s.accepted
            && (t.written == s.written
                || (Slave.Matches(s.slaves[id].slave, m.info) &&
                    exists w :: t.written == s.written + [w] && w.info == m.info
                                && w.incarnation == s.slaves[id].incarnation
                                && s.slaves[id].slave.record == Some(w.consumed)))
  {
  }

  /** How a step changes a slave that stays: its record is as before, or gone, or the request just accepted. */
  ghost predicate PeerChange(s: System, e: Gateway.Event, id: ActorId, p: Peer, p': Peer)
    requires Gateway.Enabled(s, e)
  {
    && p'.incarnation == p.incarnation
    && (|| p'.slave.record == p.slave.record
        || p'.slave.record.None?
        || (e.SlaveRead? && e.id == id && Slave.Accepts(e.read) && p'.slave.record == Some(NewInfo(s, e))))
  }

  lemma StepSlaves(s: System, e: Gateway.Event, id: ActorId)
    requires Gateway.Enabled(s, e) && id in Gateway.Step(s, e).slaves
    ensures var t := Gateway.Step(s, e);
            if e.Join? && e.id == id then t.slaves[id].slave.record.None?
            else id in s.slaves && PeerChange(s, e, id, s.slaves[id], t.slaves[id])
  {
    hide Masters.Step;
    match e
    case Join(_, _, _) =>
    case Leave(_) =>
    case SlaveRead(_, _) => ReadChanges(s, e, id);
    case SlaveWrote(_, _) =>
    case Deliver(i, clock) => DeliverChanges(s, e, id);
    case MasterDone(_, _) =>
  }

  lemma ReadChanges(s: System, e: Gateway.Event, id: ActorId)
    requires Gateway.Enabled(s, e) && e.SlaveRead? && id in s.slaves
    ensures PeerChange(s, e, id, s.slaves[id], Gateway.Step(s, e).slaves[id])
  {
  }

  lemma DeliverChanges(s: System, e: Gateway.Event, id: ActorId)
    requires Gateway.Enabled(s, e) && e.Deliver? && id in s.slaves
    ensures Gateway.Step(s, e).slaves.Keys == s.slaves.Keys
    ensures PeerChange(s, e, id, s.slaves[id], Gateway.Step(s, e).slaves[id])
  {
    var to := s.mail[e.index].to;
    if to in s.masters {
      GatewaySteps.DeliverIsReceive(s, e.index, e.clock);
    }
  }

  lemma HomedStep(s: System, pl: Places, e: Gateway.Event)
    requires GatewayInvariant.Inv(s, pl) && Gateway.Enabled(s, e) && Homed(s) && NoReuse(s, e)
    ensures Homed(Gateway.Step(s, e))
  {
    var t := Gateway.Step(s, e);
    forall info | Live(t, info) ensures InfoHomed(t, info) {
      InfoHomedStep(s, pl, e, info);
    }
    forall k | 0 <= k < |t.written| ensures WrittenHome(t, t.written[k]) {
      WrittenHomeStep(s, pl, e, k);
    }
  }

  lemma InfoHomedStep(s: System, pl: Places, e: Gateway.Event, info: Info)
    requires GatewayInvariant.Inv(s, pl) && Gateway.Enabled(s, e) && NoReuse(s, e)
    requires Live(s, info) ==> InfoHomed(s, info)
    requires Live(Gateway.Step(s, e), info)
    ensures InfoHomed(Gateway.Step(s, e), info)
  {
    hide Gateway.Step, MasterStep, Masters.Inv;
    StepWrites(s, pl, e);
    StepLive(s, pl, e, info);
    if info.sourceId in Gateway.Step(s, e).slaves {
      StepSlaves(s, e, info.sourceId);
    }
    if Live(s, info) {
      LiveIsAccepted(s, pl, info);
    } else {
      ReadIsHome(s, pl, e);
    }
  }

  lemma ReadIsHome(s: System, pl: Places, e: Gateway.Event)
    requires GatewayInvariant.Inv(s, pl) && Gateway.Enabled(s, e) && e.SlaveRead? && Slave.Accepts(e.read)
    ensures InfoHomed(Gateway.Step(s, e), NewInfo(s, e))
  {
    assert SlaveOk(s, pl, e.id);
  }

  lemma WrittenHomeStep(s: System, pl: Places, e: Gateway.Event, k: nat)
    requires GatewayInvariant.Inv(s, pl) && Gateway.Enabled(s, e) && Homed(s) && k < |Gateway.Step(s, e).written|
    ensures WrittenHome(Gateway.Step(s, e), Gateway.Step(s, e).written[k])
  {
    hide Gateway.Step, SlavesOk, MailOk, Masters.Inv;
    StepWrites(s, pl, e);
    if k < |s.written| {
      OldIsHome(s, pl, Gateway.Step(s, e), k);
    } else {
      DeliveredIsHome(s, pl, e.index);
    }
  }

  lemma OldIsHome(s: System, pl: Places, t: System, k: nat)
    requires WrittenOk(s, pl) && Homed(s) && k < |s.written| && s.accepted <= t.accepted
    ensures WrittenHome(t, s.written[k])
  {
    assert WrittenHome(s, s.written[k]) && WrittenOneOk(s, pl, s.written[k]);
  }

  lemma DeliveredIsHome(s: System, pl: Places, i: nat)
    requires GatewayInvariant.Inv(s, pl) && Homed(s) && i < |s.mail|
    ensures var info := s.mail[i].msg.info; InfoHomed(s, info) && info.tag < |s.accepted|
  {
    assert Live(s, s.mail[i].msg.info);
    LiveIsAccepted(s, pl, s.mail[i].msg.info);
  }

  lemma LiveIsAccepted(s: System, pl: Places, info: Info)
    requires GatewayInvariant.Inv(s, pl) && Live(s, info)
    ensures info.tag < |s.accepted| && s.accepted[info.tag].info == info
  {
    if i :| 0 <= i < |s.mail| && s.mail[i].msg.info == info {
      assert LetterOk(s, pl, s.mail[i]);
    } else {
      var id :| id in s.masters && HeldInfo(s.masters[id], info);
      var x :| x in Held(PipeOf(s.masters[id])) && x.info == info;
      assert MasterOk(s, pl, id);
      assert HeldOk(s, pl, id, x);
    }
  }

  lemma InitNothingLive(s: System)
    requires Init(s)
    ensures (forall info :: !Live(s, info)) && Homed(s) && Exact(s)
  {
    assert forall id :: id in s.masters ==> Held(PipeOf(s.masters[id])) == [];
  }

  lemma HomedNext(states: seq<System>, events: seq<Gateway.Event>, n: nat)
    requires IsRun(states, events) && n < |events| && Homed(states[n]) && NoReuse(states[n], events[n])
    ensures Homed(states[n + 1])
  {
    var pl := GatewaySteps.RunInv(states, events, n);
    assert Follows(states, events, n);
    HomedStep(states[n], pl, events[n]);
  }

  /** If actor ids are not reused while messages with that source are outstanding, the frame written for a request is
      written by the slave that accepted this request. */
  lemma {:induction false} AnsweredBySameSlave(states: seq<System>, events: seq<Gateway.Event>, n: nat)
    requires IsRun(states, events) && n < |states|
    requires forall k :: 0 <= k < |events| ==> NoReuse(states[k], events[k])
    ensures Homed(states[n])
  {
    if n == 0 {
      InitNothingLive(states[0]);
    } else {
      AnsweredBySameSlave(states, events, n - 1);
      HomedNext(states, events, n - 1);
    }
  }

  // ---------- the very request ----------

  /** An outstanding message with the identifier of its slave's record is for the recorded request; every frame used up the
      record of the request it was made for. */
  ghost predicate Exact(s: System) {
    && (forall info, id :: Live(s, info) && id in s.slaves ==> RecordIsOwn(s.slaves[id], id, info))
    && (forall k :: 0 <= k < |s.written| ==> s.written[k].consumed.tag == s.written[k].info.tag)
  }

  predicate RecordIsOwn(p: Peer, id: ActorId, info: Info) {
    p.slave.record.Some? && info.sourceId == id && info.transactionId == p.slave.record.value.transactionId ==>
      info.tag == p.slave.record.value.tag
  }

  lemma RecordStep(s: System, pl: Places, e: Gateway.Event, info: Info, id: ActorId)
    requires GatewayInvariant.Inv(s, pl) && Gateway.Enabled(s, e) && FreshTransactionId(s, e)
    requires Live(s, info) && id in s.slaves ==> RecordIsOwn(s.slaves[id], id, info)
    requires Live(Gateway.Step(s, e), info) && id in Gateway.Step(s, e).slaves
    ensures RecordIsOwn(Gateway.Step(s, e).slaves[id], id, info)
  {
    hide Masters.Step;
    StepSlaves(s, e, id);
    StepLive(s, pl, e, info);
    if e.SlaveRead? && Slave.Accepts(e.read) && info == NewInfo(s, e) && !Live(s, info) {
      assert SlaveOk(s, pl, e.id);
      ReadSetsRecord(s, e);
    }
  }

  lemma ReadSetsRecord(s: System, e: Gateway.Event)
    requires Gateway.Enabled(s, e) && e.SlaveRead? && Slave.Accepts(e.read)
    ensures Gateway.Step(s, e).slaves[e.id].slave.record == Some(NewInfo(s, e))
  {
  }

  lemma ExactStep(s: System, pl: Places, e: Gateway.Event)
    requires GatewayInvariant.Inv(s, pl) && Gateway.Enabled(s, e) && Exact(s) && FreshTransactionId(s, e)
    ensures Exact(Gateway.Step(s, e))
  {
    hide Gateway.Step, SlavesOk;
    var t := Gateway.Step(s, e);
    StepWrites(s, pl, e);
    forall info, id | Live(t, info) && id in t.slaves ensures RecordIsOwn(t.slaves[id], id, info) {
      RecordStep(s, pl, e, info, id);
    }
    forall k | 0 <= k < |t.written| ensures t.written[k].consumed.tag == t.written[k].info.tag {
      if k >= |s.written| {
        var info, id := s.mail[e.index].msg.info, s.mail[e.index].to;
        assert Live(s, info);
        assert RecordIsOwn(s.slaves[id], id, info);
      }
    }
  }

  lemma ExactNext(states: seq<System>, events: seq<Gateway.Event>, n: nat)
    requires IsRun(states, events) && n < |events| && Exact(states[n])
    requires Gateway.Enabled(states[n], events[n]) && FreshTransactionId(states[n], events[n])
    ensures Exact(states[n + 1])
  {
    var pl := GatewaySteps.RunInv(states, events, n);
    assert Follows(states, events, n);
    ExactStep(states[n], pl, events[n]);
  }

  /** If no request is accepted under a transaction id that is still outstanding for that slave, every frame a slave writes
      is the response to the very request whose record it uses up. */
  lemma {:induction false} AnswersTheVeryRequest(states: seq<System>, events: seq<Gateway.Event>, n: nat)
    requires IsRun(states, events) && n < |states|
    requires forall k :: 0 <= k < |events| ==>
               Gateway.Enabled(states[k], events[k]) && FreshTransactionId(states[k], events[k])
    ensures Exact(states[n])
  {
    if n == 0 {
      InitNothingLive(states[0]);
    } else {
      AnswersTheVeryRequest(states, events, n - 1);
      ExactNext(states, events, n - 1);
    }
  }
}
