/** The slaves inside the gateway run as they do alone, from the moment they join. */
module GatewaySlaves {
  import opened Messages
  import opened Pipeline
  import opened Gateway
  import opened GatewayInvariant
  import GatewayExact
  import GatewaySteps
  import Slave
  import SlaveRuns

  /** The event that a step of the gateway is for the slave with the given id, if it is one. */
  function EventFor(s: System, e: Gateway.Event, id: ActorId): Option<Slave.Event> {
    match e
    case Join(other, _, buffer) => if other == id then Some(Slave.Start(buffer)) else None
    case SlaveRead(other, r) => if other == id then Some(r) else None
    case SlaveWrote(other, write) => if other == id then Some(Slave.WriteDone(write)) else None
    case Deliver(i, _) =>
      if i < |s.mail| && s.mail[i].to == id && id !in s.masters && id in s.slaves
      then Some(Slave.Receive(s.mail[i].msg.info, Some(s.mail[i].msg.buffer)))
      else None
    case _ => None
  }

  /** The slave before a step, as far as its own run goes: one that joins is new. */
  function Before(s: System, e: Gateway.Event, id: ActorId): Option<Slave.State> {
    if e.Join? && e.id == id then Some(Slave.Init(id, e.kind))
    else if id in s.slaves then Some(s.slaves[id].slave) else None
  }

  /** A step of the gateway leaves a slave alone or is one step of it. */
  lemma StepProjects(s: System, e: Gateway.Event, id: ActorId)
    requires Gateway.Enabled(s, e) && id in Gateway.Step(s, e).slaves
    ensures var t, f, before := Gateway.Step(s, e), EventFor(s, e, id), Before(s, e, id);
            && before.Some? && !(e.Leave? && e.id == id)
            && t.slaves[id].incarnation == (if e.Join? && e.id == id then s.births else s.slaves[id].incarnation)
            && if f.None? then t.slaves[id].slave == before.value
               else Slave.Enabled(before.value, f.value) && t.slaves[id].slave == Slave.Step(before.value, f.value)
  {
    hide Slave.Step;
    match e
    case Join(_, _, _) =>
    case Leave(_) =>
    case SlaveRead(_, _) =>
    case SlaveWrote(_, _) =>
    case Deliver(i, clock) => DeliverProjects(s, i, clock, id);
    case MasterDone(_, _) =>
  }

  /** What a letter does to the slaves. */
  lemma DeliverChangesSlaves(s: System, i: nat, clock: Clock)
    requires i < |s.mail|
    ensures var to, m := s.mail[i].to, s.mail[i].msg;
            Gateway.Step(s, Deliver(i, clock)).slaves ==
            if to in s.masters || to !in s.slaves then s.slaves
            else
              var p := s.slaves[to];
              s.slaves[to := p.(slave := Slave.Step(p.slave, Slave.Receive(m.info, Some(m.buffer))))]
  {
    hide Slave.Step, Slave.Matches;
    if s.mail[i].to in s.masters {
      GatewaySteps.DeliverIsReceive(s, i, clock);
    } else if s.mail[i].to in s.slaves {
      GatewaySteps.DeliverIsSlaveReceive(s, i, clock);
    }
  }

  lemma DeliverProjects(s: System, i: nat, clock: Clock, id: ActorId)
    requires i < |s.mail| && id in Gateway.Step(s, Deliver(i, clock)).slaves
    ensures var t, f := Gateway.Step(s, Deliver(i, clock)), EventFor(s, Deliver(i, clock), id);
            && id in s.slaves && t.slaves[id].incarnation == s.slaves[id].incarnation
            && if f.None? then t.slaves[id].slave == s.slaves[id].slave
               else Slave.Enabled(s.slaves[id].slave, f.value)
                    && t.slaves[id].slave == Slave.Step(s.slaves[id].slave, f.value)
  {
    hide Gateway.Step, Slave.Step;
    DeliverChangesSlaves(s, i, clock);
  }

  predicate ComesOrGoes(e: Gateway.Event, id: ActorId) {
    (e.Join? || e.Leave?) && e.id == id
  }

  /** es are exactly the events that the first n steps of the gateway are for the slave since it joined, in order: the k-th of
      them is step at[k], the first one is the join, and ss[k] is the slave before it. */
  ghost predicate ProjectionOf(states: seq<System>, events: seq<Gateway.Event>, n: nat, id: ActorId,
                               ss: seq<Slave.State>, es: seq<Slave.Event>, at: seq<nat>)
    requires n <= |events| && n < |states|
  {
    && |ss| == |es| + 1 && |at| == |es| && at != []
    && (forall k :: 0 <= k < |es| ==> IsStepOf(states, events, n, id, ss[k], es[k], at[k]))
    && (forall k, l :: 0 <= k < l < |at| ==> at[k] < at[l])
    && at[0] < n && events[at[0]].Join? && events[at[0]].id == id
    && (forall j :: at[0] < j < n ==> !ComesOrGoes(events[j], id))
    && (forall j :: at[0] <= j < n && EventFor(states[j], events[j], id).Some? ==> j in at)
  }

  ghost predicate IsStepOf(states: seq<System>, events: seq<Gateway.Event>, n: nat, id: ActorId,
                           m: Slave.State, e: Slave.Event, j: nat)
    requires n <= |events| && n < |states|
  {
    j < n && EventFor(states[j], events[j], id) == Some(e) && Before(states[j], events[j], id) == Some(m)
  }

  /** One more step of the gateway that is not for the slave. */
  lemma ProjectionWaits(states: seq<System>, events: seq<Gateway.Event>, n: nat, id: ActorId,
                        ss: seq<Slave.State>, es: seq<Slave.Event>, at: seq<nat>)
    requires 0 < n <= |events| && n < |states| && ProjectionOf(states, events, n - 1, id, ss, es, at)
    requires EventFor(states[n - 1], events[n - 1], id).None? && !ComesOrGoes(events[n - 1], id)
    ensures ProjectionOf(states, events, n, id, ss, es, at)
  {
    forall k | 0 <= k < |es| ensures IsStepOf(states, events, n, id, ss[k], es[k], at[k]) {
      assert IsStepOf(states, events, n - 1, id, ss[k], es[k], at[k]);
    }
  }

  /** One more step that is. */
  lemma ProjectionExtends(states: seq<System>, events: seq<Gateway.Event>, n: nat, id: ActorId,
                          ss: seq<Slave.State>, es: seq<Slave.Event>, at: seq<nat>, e: Slave.Event, m: Slave.State)
    requires 0 < n <= |events| && n < |states| && ProjectionOf(states, events, n - 1, id, ss, es, at)
    requires IsStepOf(states, events, n, id, ss[|es|], e, n - 1) && !ComesOrGoes(events[n - 1], id)
    ensures ProjectionOf(states, events, n, id, ss + [m], es + [e], at + [n - 1])
  {
    var ss', es', at' := ss + [m], es + [e], at + [n - 1];
    forall k | 0 <= k < |es'| ensures IsStepOf(states, events, n, id, ss'[k], es'[k], at'[k]) {
      assert k < |es| ==> IsStepOf(states, events, n - 1, id, ss[k], es[k], at[k]);
    }
    forall k, l | 0 <= k < l < |at'| ensures at'[k] < at'[l] {
      assert IsStepOf(states, events, n - 1, id, ss[k], es[k], at[k]);
    }
    forall j | at'[0] <= j < n && EventFor(states[j], events[j], id).Some? ensures j in at' {
      if j < n - 1 {
        assert j in at;
      } else {
        assert at'[|at|] == j;
      }
    }
  }

  /** A slave that just joined. */
  lemma ProjectionStarts(states: seq<System>, events: seq<Gateway.Event>, n: nat, id: ActorId, e: Slave.Event,
                         ss: seq<Slave.State>)
    requires 0 < n <= |events| && n < |states| && |ss| == 2
    requires events[n - 1].Join? && events[n - 1].id == id
    requires IsStepOf(states, events, n, id, ss[0], e, n - 1)
    ensures ProjectionOf(states, events, n, id, ss, [e], [n - 1])
  {
  }

  /** Every slave in the gateway has gone through a run of its own since it joined, made of exactly the reads, completions and
      letters that the gateway gave it, as the side and under the id it joined with. */
  lemma {:induction false} SlaveProjection(states: seq<System>, events: seq<Gateway.Event>, n: nat, id: ActorId)
    returns (ss: seq<Slave.State>, es: seq<Slave.Event>, at: seq<nat>)
    requires IsRun(states, events) && n < |states| && id in states[n].slaves
    ensures Slave.IsRun(ss, es) && ss[|es|] == states[n].slaves[id].slave
    ensures ProjectionOf(states, events, n, id, ss, es, at)
    ensures ss[0] == Slave.Init(id, events[at[0]].kind)
    ensures states[n].slaves[id].incarnation == states[at[0]].births
  {
    hide Gateway.Step, Gateway.Enabled, Slave.Step, Slave.Enabled, EventFor;
    assert n > 0;
    var s, e := states[n - 1], events[n - 1];
    assert Follows(states, events, n - 1);
    StepProjects(s, e, id);
    var f := EventFor(s, e, id);
    if e.Join? && e.id == id {
      JoinStarts(s, e);
      ss, es, at := [Slave.Init(id, e.kind), states[n].slaves[id].slave], [f.value], [n - 1];
      assert IsStepOf(states, events, n, id, ss[0], f.value, n - 1);
      ProjectionStarts(states, events, n, id, f.value, ss);
      assert Slave.Follows(ss, es, 0);
    } else {
      ss, es, at := SlaveProjection(states, events, n - 1, id);
      if f.None? {
        ProjectionWaits(states, events, n, id, ss, es, at);
      } else {
        var m := Slave.Step(ss[|es|], f.value);
        assert IsStepOf(states, events, n, id, ss[|es|], f.value, n - 1);
        ProjectionExtends(states, events, n, id, ss, es, at, f.value, m);
        Slave.RunExtends(ss, es, f.value);
        ss, es, at := ss + [m], es + [f.value], at + [n - 1];
      }
    }
  }

  lemma JoinStarts(s: System, e: Gateway.Event)
    requires e.Join?
    ensures EventFor(s, e, e.id) == Some(Slave.Start(e.buffer))
  {
  }

  /** In every run, whether a letter that reaches a slave is written depends on these conditions alone: it takes the latest
      request that the slave accepted, and no other letter took it before. */
  lemma AnswersIff(states: seq<System>, events: seq<Gateway.Event>, n: nat, i: nat, clock: Clock)
    requires IsRun(states, events) && n < |events| && events[n] == Deliver(i, clock)
    requires i < |states[n].mail| && states[n].mail[i].to in states[n].slaves
    ensures var s, t, m, p := states[n], states[n + 1], states[n].mail[i].msg, states[n].slaves[states[n].mail[i].to];
            && |t.written| == |s.written| + (if SlaveRuns.Takes(p.slave, m.info) then 1 else 0)
            && (SlaveRuns.Takes(p.slave, m.info) ==>
                  var w := t.written[|s.written|];
                  && w.info == m.info && w.consumed == p.slave.accepted[|p.slave.accepted| - 1]
                  && w.incarnation == p.incarnation)
  {
    hide Gateway.Step, Slave.Step;
    var s, id := states[n], states[n].mail[i].to;
    var pl := GatewaySteps.RunInv(states, events, n);
    assert Follows(states, events, n);
    assert SlaveOk(s, pl, id);
    var ss, es, at := SlaveProjection(states, events, n, id);
    Slave.RunInv(ss, es, |es|);
    GatewayExact.StepWrites(s, pl, events[n]);
    if GatewayExact.Answers(s, events[n]) {
      var w :| GatewayExact.Writes(s, events[n], w) && w.info == s.mail[i].msg.info && w.info.sourceId == id
               && s.slaves[id].slave.record == Some(w.consumed) && w.incarnation == s.slaves[id].incarnation;
      assert states[n + 1].written[|s.written|] == w;
    }
  }
}
