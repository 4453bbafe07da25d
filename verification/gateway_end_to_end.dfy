/** What holds of every run of a master holds in the gateway too; put together with the identity of messages and the origin of
    every reply this gives the end-to-end guarantee. */
module GatewayEndToEnd {
  import opened Messages
  import opened Pipeline
  import opened Masters
  import opened Gateway
  import opened GatewayInvariant
  import GatewayExact
  import GatewayMasters
  import GatewayProvenance
  import GatewayRouting
  import GatewaySteps
  import GatewayTheorems
  import MasterRuns
  import RtuMasterRuns
  import Slave
  import TcpClientRuns

  // ---------- the origin of a reply ----------

  /** Every reply is in the log of the master that made it a response. */
  ghost predicate Logged(s: System) {
    && s.origins.Keys == s.replies.Keys
    && forall t :: t in s.origins ==> s.origins[t].master in s.masters
                                      && InLog(PipeOf(s.masters[s.origins[t].master]), t, s.origins[t].answers)
  }

  ghost predicate InLog(p: Pipe, tag: nat, answers: int) {
    exists j :: 0 <= j < |p.log.delivered| && p.log.delivered[j].msg.info.tag == tag && p.log.delivered[j].answers == answers
  }

  lemma InLogGrows(p: Pipe, q: Pipe, tag: nat, answers: int)
    requires InLog(p, tag, answers) && p.log.delivered <= q.log.delivered
    ensures InLog(q, tag, answers)
  {
    var j :| 0 <= j < |p.log.delivered| && p.log.delivered[j].msg.info.tag == tag
             && p.log.delivered[j].answers == answers;
    assert q.log.delivered[j] == p.log.delivered[j];
  }

  /** A step of a master appends to its deliveries exactly the response it sends. */
  lemma DeliveredGrows(m: Master, e: Masters.Event)
    requires Masters.Inv(m) && Masters.Enabled(m, e)
    ensures var p, q, o := PipeOf(m), PipeOf(Masters.Step(m, e)), EffectOf(m, e);
            && p.log.delivered <= q.log.delivered
            && (o.response.Some? ==> InLog(q, o.response.value.info.tag, o.answers))
  {
    var p, q, o := PipeOf(m), PipeOf(Masters.Step(m, e)), EffectOf(m, e);
    if m.Rtu? {
      RtuMasterRuns.StepDelivers(m.rtu, e.rtu);
    } else {
      TcpClientRuns.StepDelivers(m.tcp, e.tcp);
    }
    if o.response.Some? {
      assert q.log.delivered[|p.log.delivered|].msg == o.response.value;
    }
  }

  lemma EffectLogged(s: System, id: ActorId, o: Effect)
    requires Logged(s) && id in s.masters && (o.response.Some? ==> o.read.Some?)
    requires PipeOf(s.masters[id]).log.delivered <= PipeOf(o.master).log.delivered
    requires o.response.Some? ==> InLog(PipeOf(o.master), o.response.value.info.tag, o.answers)
    ensures Logged(MasterEffect(s, id, o))
  {
    var t := MasterEffect(s, id, o);
    forall g | g in t.origins
      ensures t.origins[g].master in t.masters
      ensures InLog(PipeOf(t.masters[t.origins[g].master]), g, t.origins[g].answers)
    {
      if !(o.response.Some? && o.response.value.info.tag == g) {
        var other := s.origins[g].master;
        assert InLog(PipeOf(s.masters[other]), g, s.origins[g].answers);
        if other == id {
          InLogGrows(PipeOf(s.masters[id]), PipeOf(o.master), g, s.origins[g].answers);
        }
      }
    }
  }

  lemma MasterStepLogged(s: System, pl: Places, id: ActorId, e: Masters.Event)
    requires Logged(s) && GatewaySteps.MasterEnabled(s, pl, id, e)
    ensures Logged(MasterStep(s, id, e))
  {
    GatewaySteps.MasterFacts(s, pl, id, e);
    assert MasterOk(s, pl, id);
    DeliveredGrows(s.masters[id], e);
    EffectLogged(s, id, EffectOf(s.masters[id], e));
  }

  lemma DeliverLogged(s: System, pl: Places, i: nat, clock: Clock)
    requires Logged(s) && GatewayInvariant.Inv(s, pl) && i < |s.mail| && s.mail[i].to in s.masters
    ensures Logged(Gateway.Step(s, Deliver(i, clock)))
  {
    var id := s.mail[i].to;
    GatewaySteps.DeliverToMasterIsEnabled(s, pl, i, clock);
    GatewaySteps.DeliverIsReceive(s, i, clock);
    MasterStepLogged(GatewaySteps.Take(s, i), GatewaySteps.Taken(pl, s.mail[i].msg, AtMaster(id), AtMaster(id)), id,
                     Receive(s.masters[id], s.mail[i].msg, clock));
  }

  lemma SameLogged(s: System, t: System)
    requires Logged(s) && t.masters == s.masters && t.origins == s.origins && t.replies == s.replies
    ensures Logged(t)
  {
  }

  lemma OtherStepLogged(s: System, e: Gateway.Event)
    requires Logged(s) && Gateway.Enabled(s, e) && !e.MasterDone?
    requires e.Deliver? ==> s.mail[e.index].to !in s.masters
    ensures Logged(Gateway.Step(s, e))
  {
    GatewayMasters.OtherStepKeeps(s, e);
    SameLogged(s, Gateway.Step(s, e));
  }

  lemma StepLogged(s: System, pl: Places, e: Gateway.Event)
    requires Logged(s) && GatewayInvariant.Inv(s, pl) && Gateway.Enabled(s, e)
    ensures Logged(Gateway.Step(s, e))
  {
    if e.MasterDone? {
      GatewaySteps.DoneIsEnabled(s, pl, e.id, e.done);
      MasterStepLogged(s, pl, e.id, e.done);
    } else if e.Deliver? && s.mail[e.index].to in s.masters {
      DeliverLogged(s, pl, e.index, e.clock);
    } else {
      OtherStepLogged(s, e);
    }
  }

  lemma {:induction false} RunLogged(states: seq<System>, events: seq<Gateway.Event>, n: nat)
    requires IsRun(states, events) && n < |states|
    ensures Logged(states[n])
  {
    hide Gateway.Step;
    if n > 0 {
      RunLogged(states, events, n - 1);
      var pl := GatewaySteps.RunInv(states, events, n - 1);
      assert Follows(states, events, n - 1);
      StepLogged(states[n - 1], pl, events[n - 1]);
    }
  }

  // ---------- the guarantee ----------

  /** The hypotheses on the remote devices: a TCP device only echoes identifiers of requests it was sent, and its reply is
      read before 2^16 more requests went out; an RTU reply is not read after its request has left the slot. */
  ghost predicate RepliesSound(s: System, e: Gateway.Event) {
    e.MasterDone? && e.id in s.masters ==>
      match (s.masters[e.id], e.done)
      case (Tcp(m), TcpEvent(t)) =>
        t.ReceiveDone? ==>
          TcpClientRuns.Echoes(m, t) && (TcpClientRuns.Valid(t) ==> TcpClientRuns.Age(m, t) < ID_SPACE)
      case (Rtu(m, _), RtuEvent(t)) =>
        t.ReadDone? ==> RtuMasterRuns.AnswersSent(m, t) && !RtuMasterRuns.Late(m, t)
      case _ => true
  }

  /** The reply made into the response for a request answers the dispatch of this very request. */
  ghost predicate OriginRight(s: System, tag: nat) {
    tag in s.origins ==>
      var o := s.origins[tag];
      && o.master in s.masters
      && var d := PipeOf(s.masters[o.master]).log.dispatched;
         0 <= o.answers < |d| && d[o.answers].msg.info.tag == tag
  }

  lemma TcpOriginRight(states: seq<System>, events: seq<Gateway.Event>, n: nat, id: ActorId, tag: nat, answers: int)
    requires IsRun(states, events) && n < |states| && id in states[n].masters && states[n].masters[id].Tcp?
    requires forall k :: 0 <= k < |events| ==> RepliesSound(states[k], events[k])
    requires InLog(PipeOf(states[n].masters[id]), tag, answers)
    ensures var d := PipeOf(states[n].masters[id]).log.dispatched;
            0 <= answers < |d| && d[answers].msg.info.tag == tag
  {
    hide Follows;
    var ms, es, at := GatewayMasters.MasterProjection(states, events, n, id);
    MasterRuns.RunInv(ms, es, |es|);
    var ts, fs := MasterRuns.TcpRun(ms, es);
    forall k | 0 <= k < |fs|
      ensures TcpClientRuns.Echoes(ts[k], fs[k])
      ensures TcpClientRuns.Valid(fs[k]) ==> TcpClientRuns.Age(ts[k], fs[k]) < ID_SPACE
    {
      assert GatewayMasters.IsStepOf(states, events, n, id, ms[k], es[k], at[k]);
      assert RepliesSound(states[at[k]], events[at[k]]);
    }
    var delivered := PipeOf(states[n].masters[id]).log.delivered;
    var j :| 0 <= j < |delivered| && delivered[j].msg.info.tag == tag && delivered[j].answers == answers;
    TcpClientRuns.RepliesReachTheirSource(ts, fs, |fs|, j);
  }

  lemma RtuOriginRight(states: seq<System>, events: seq<Gateway.Event>, n: nat, id: ActorId, tag: nat, answers: int)
    requires IsRun(states, events) && n < |states| && id in states[n].masters && states[n].masters[id].Rtu?
    requires forall k :: 0 <= k < |events| ==> RepliesSound(states[k], events[k])
    requires InLog(PipeOf(states[n].masters[id]), tag, answers)
    ensures var d := PipeOf(states[n].masters[id]).log.dispatched;
            0 <= answers < |d| && d[answers].msg.info.tag == tag
  {
    hide Follows;
    var ms, es, at := GatewayMasters.MasterProjection(states, events, n, id);
    MasterRuns.RunInv(ms, es, |es|);
    var rs, fs := MasterRuns.RtuRun(ms, es);
    forall k | 0 <= k < |fs|
      ensures RtuMasterRuns.AnswersSent(rs[k], fs[k]) && !RtuMasterRuns.Late(rs[k], fs[k])
    {
      assert GatewayMasters.IsStepOf(states, events, n, id, ms[k], es[k], at[k]);
      assert RepliesSound(states[at[k]], events[at[k]]);
    }
    var delivered := PipeOf(states[n].masters[id]).log.delivered;
    var j :| 0 <= j < |delivered| && delivered[j].msg.info.tag == tag && delivered[j].answers == answers;
    RtuMasterRuns.InTimeRepliesReachTheirSource(rs, fs, |fs|, j);
  }

  lemma RepliesAnswerTheirRequests(states: seq<System>, events: seq<Gateway.Event>, n: nat, tag: nat)
    requires IsRun(states, events) && n < |states|
    requires forall k :: 0 <= k < |events| ==> RepliesSound(states[k], events[k])
    ensures OriginRight(states[n], tag)
  {
    RunLogged(states, events, n);
    if tag in states[n].origins {
      var o := states[n].origins[tag];
      if states[n].masters[o.master].Tcp? {
        TcpOriginRight(states, events, n, o.master, tag, o.answers);
      } else {
        RtuOriginRight(states, events, n, o.master, tag, o.answers);
      }
    }
  }

  /** End to end: if the remote devices behave as above and no response is delivered after its request was superseded, then
      every frame a slave writes is for a request that this very slave accepted, read at step j, and carries the unit id and PDU
      that were read at step i, in reply to exactly that request, by the master its unit id is routed to; it is framed as the
      slave's side requires, and on the TCP side carries the client's own transaction id; and no request is answered twice. */
  lemma EndToEnd(states: seq<System>, events: seq<Gateway.Event>, n: nat, k: nat) returns (i: nat, j: nat)
    requires IsRun(states, events) && n < |states| && k < |states[n].written|
    requires forall l :: 0 <= l < |events| ==>
               RepliesSound(states[l], events[l]) && !GatewayExact.SupersededAnswer(states[l], events[l])
    ensures var s, w := states[n], states[n].written[k];
            var t := w.info.tag;
            && j < n && t < |s.accepted| && GatewayProvenance.ReadsRequest(events[j], s.accepted[t])
            && s.accepted[t].info == w.info && s.accepted[t].incarnation == w.incarnation
            && w.frame.frameType == Slave.TypeOf(s.accepted[t].kind)
            && (s.accepted[t].kind.Connection? ==> w.frame.transactionId == events[j].read.request.frame.transactionId)
            && t in s.replies && PayloadOf(w.frame) == s.replies[t]
            && i < n && t in s.origins && OriginRight(s, t)
            && GatewayProvenance.ReadsReply(states[i], events[i], t, s.origins[t], PayloadOf(w.frame))
            && GatewayRouting.RoutedTo(s, t, s.origins[t].master)
            && (forall l :: 0 <= l < |s.written| && s.written[l].info.tag == t ==> l == k)
  {
    hide Follows;
    var pl := GatewaySteps.RunInv(states, events, n);
    assert WrittenOneOk(states[n], pl, states[n].written[k]);
    GatewayExact.ExactIff(states, events, n);
    i, j := GatewayTheorems.WrittenCarriesReplyAndClientId(states, events, n, k);
    RepliesAnswerTheirRequests(states, events, n, states[n].written[k].info.tag);
    GatewayTheorems.AtMostOnce(states, events, n);
    GatewayRouting.RunIsRouted(states, events, n);
  }
}
