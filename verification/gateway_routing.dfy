/** Every request goes to the master that its unit id is routed to. */
module GatewayRouting {
  import opened Messages
  import opened Pipeline
  import opened Masters
  import opened Gateway
  import opened GatewayInvariant
  import GatewaySteps
  import Routing

  /** The unit id of the accepted request is routed to this actor. */
  predicate RoutedTo(s: System, tag: nat, id: ActorId) {
    && tag < |s.accepted|
    && s.accepted[tag].frame.unitId < |s.route| && s.route[s.accepted[tag].frame.unitId] == id
  }

  /** Requests in the mail, requests held by a master, frames on a wire and replies. */
  ghost predicate Routed(s: System) {
    && (forall i :: 0 <= i < |s.mail| && s.mail[i].msg.info.tag !in s.replies ==>
          RoutedTo(s, s.mail[i].msg.info.tag, s.mail[i].to))
    && (forall id :: id in s.masters ==> AllRoutedTo(s, Held(PipeOf(s.masters[id])), id))
    && (forall k :: 0 <= k < |s.wire| ==> RoutedTo(s, s.wire[k].tag, s.wire[k].master))
    && (forall t :: t in s.origins ==> RoutedTo(s, t, s.origins[t].master))
  }

  ghost predicate AllRoutedTo(s: System, messages: seq<Msg>, id: ActorId) {
    forall x :: x in messages ==> RoutedTo(s, x.info.tag, id)
  }

  /** What is routed stays routed when requests are added. */
  lemma RoutedStays(s: System, t: System)
    requires Routed(s) && s.accepted <= t.accepted && s.route == t.route
    requires t.masters == s.masters && t.wire == s.wire && t.origins == s.origins && t.replies == s.replies
    requires forall i :: 0 <= i < |t.mail| && t.mail[i].msg.info.tag !in t.replies ==>
               t.mail[i] in s.mail || RoutedTo(t, t.mail[i].msg.info.tag, t.mail[i].to)
    ensures Routed(t)
  {
    assert forall tag: nat, id :: RoutedTo(s, tag, id) ==> RoutedTo(t, tag, id);
  }

  lemma EffectIsRouted(s: System, id: ActorId, incoming: seq<Msg>, o: Effect)
    requires Routed(s) && id in s.masters && AllRoutedTo(s, incoming, id)
    requires Keeps(Held(PipeOf(s.masters[id])) + incoming, Held(PipeOf(o.master)))
    requires o.started.Some? ==> o.started.value.msg in Held(PipeOf(o.master))
    requires o.response.Some? ==> o.read.Some? && HeldInfo(s.masters[id], o.response.value.info)
    ensures Routed(MasterEffect(s, id, o))
  {
    hide Held, PipeOf, Apart;
    var t, held := MasterEffect(s, id, o), Held(PipeOf(s.masters[id]));
    assert forall tag: nat, other :: RoutedTo(s, tag, other) <==> RoutedTo(t, tag, other);
    forall x | x in Held(PipeOf(o.master)) ensures RoutedTo(s, x.info.tag, id) {
      assert x in held + incoming;
    }
    forall i | 0 <= i < |t.mail| && t.mail[i].msg.info.tag !in t.replies
      ensures RoutedTo(t, t.mail[i].msg.info.tag, t.mail[i].to)
    {
      assert i < |s.mail| && t.mail[i] == s.mail[i];
    }
  }

  ghost predicate HeldInfo(m: Master, info: Info) {
    exists x :: x in Held(PipeOf(m)) && x.info == info
  }

  lemma MasterStepIsRouted(s: System, pl: Places, id: ActorId, e: Masters.Event)
    requires Routed(s) && GatewaySteps.MasterEnabled(s, pl, id, e) && AllRoutedTo(s, Incoming(e), id)
    ensures Routed(MasterStep(s, id, e))
  {
    hide Masters.Step, Masters.Inv;
    var m, o := s.masters[id], EffectOf(s.masters[id], e);
    assert MasterOk(s, pl, id);
    StepFlows(m, e);
    GatewaySteps.MasterFacts(s, pl, id, e);
    if o.response.Some? {
      assert Held(PipeOf(m))[0] == PipeOf(m).current.value.msg;
    }
    if o.started.Some? {
      assert Held(PipeOf(o.master))[0] == o.started.value.msg;
    }
    EffectIsRouted(s, id, Incoming(e), o);
  }

  lemma TakeIsRouted(s: System, i: nat)
    requires Routed(s) && i < |s.mail|
    ensures Routed(GatewaySteps.Take(s, i))
  {
    RoutedStays(s, GatewaySteps.Take(s, i));
  }

  lemma DeliverIsRouted(s: System, pl: Places, i: nat, clock: Clock)
    requires Routed(s) && GatewayInvariant.Inv(s, pl) && i < |s.mail| && s.mail[i].to in s.masters
    ensures Routed(Gateway.Step(s, Deliver(i, clock)))
  {
    var id := s.mail[i].to;
    GatewaySteps.TakenIsRequest(s, pl, s.mail[i]);
    GatewaySteps.DeliverToMasterIsEnabled(s, pl, i, clock);
    GatewaySteps.ReceiveIsEnabled(s.masters[id], s.mail[i].msg, clock);
    GatewaySteps.DeliverIsReceive(s, i, clock);
    TakenStepIsRouted(s, GatewaySteps.Taken(pl, s.mail[i].msg, AtMaster(id), AtMaster(id)), i,
                      Receive(s.masters[id], s.mail[i].msg, clock));
  }

  lemma TakenStepIsRouted(s: System, pl: Places, i: nat, e: Masters.Event)
    requires Routed(s) && i < |s.mail| && s.mail[i].msg.info.tag !in s.replies && Incoming(e) == [s.mail[i].msg]
    requires GatewaySteps.MasterEnabled(GatewaySteps.Take(s, i), pl, s.mail[i].to, e)
    ensures Routed(MasterStep(GatewaySteps.Take(s, i), s.mail[i].to, e))
  {
    var t := GatewaySteps.Take(s, i);
    TakeIsRouted(s, i);
    assert RoutedTo(t, s.mail[i].msg.info.tag, s.mail[i].to);
    MasterStepIsRouted(t, pl, s.mail[i].to, e);
  }

  /** A slave puts its request into the mail under the route of its unit id. */
  lemma ReadIsRouted(s: System, pl: Places, e: Gateway.Event)
    requires Routed(s) && AcceptedOk(s) && Gateway.Enabled(s, e) && e.SlaveRead?
    ensures Routed(Gateway.Step(s, e))
  {
    RoutedStays(s, Gateway.Step(s, e));
  }

  lemma SlaveStepIsRouted(s: System, e: Gateway.Event)
    requires Routed(s) && Gateway.Enabled(s, e) && (e.Join? || e.Leave? || e.SlaveWrote?)
    ensures Routed(Gateway.Step(s, e))
  {
    RoutedStays(s, Gateway.Step(s, e));
  }

  /** A letter that reaches a slave, or nobody. */
  lemma DeliverElsewhereIsRouted(s: System, i: nat, clock: Clock)
    requires Routed(s) && i < |s.mail| && s.mail[i].to !in s.masters
    ensures Routed(Gateway.Step(s, Deliver(i, clock)))
  {
    hide RoutedTo, MasterStep;
    TakeIsRouted(s, i);
    RoutedStays(GatewaySteps.Take(s, i), Gateway.Step(s, Deliver(i, clock)));
  }

  lemma StepKeepsRouted(s: System, pl: Places, e: Gateway.Event)
    requires Routed(s) && GatewayInvariant.Inv(s, pl) && Gateway.Enabled(s, e)
    ensures Routed(Gateway.Step(s, e))
  {
    if e.SlaveRead? {
      ReadIsRouted(s, pl, e);
    } else if e.MasterDone? {
      GatewaySteps.DoneIsEnabled(s, pl, e.id, e.done);
      MasterStepIsRouted(s, pl, e.id, e.done);
    } else if !e.Deliver? {
      SlaveStepIsRouted(s, e);
    } else if s.mail[e.index].to in s.masters {
      DeliverIsRouted(s, pl, e.index, e.clock);
    } else {
      DeliverElsewhereIsRouted(s, e.index, e.clock);
    }
  }

  lemma InitIsRouted(s: System)
    requires Init(s)
    ensures Routed(s)
  {
    assert forall id :: id in s.masters ==> Held(PipeOf(s.masters[id])) == [];
  }

  lemma StepKeepsRoute(s: System, e: Gateway.Event)
    requires Gateway.Enabled(s, e)
    ensures Gateway.Step(s, e).route == s.route
  {
    if e.Deliver? && s.mail[e.index].to in s.masters {
      GatewaySteps.DeliverIsReceive(s, e.index, e.clock);
    }
  }

  /** In every run, a request is in the mail to, held by, on the wire of and answered by the one master its unit id is routed
      to. */
  lemma {:induction false} RunIsRouted(states: seq<System>, events: seq<Gateway.Event>, n: nat)
    requires IsRun(states, events) && n < |states|
    ensures Routed(states[n]) && states[n].route == states[0].route
  {
    hide Routed, GatewayInvariant.Inv, Gateway.Step, Gateway.Enabled;
    if n == 0 {
      InitIsRouted(states[0]);
    } else {
      RunIsRouted(states, events, n - 1);
      var pl := GatewaySteps.RunInv(states, events, n - 1);
      assert Follows(states, events, n - 1);
      StepKeepsRouted(states[n - 1], pl, events[n - 1]);
      StepKeepsRoute(states[n - 1], events[n - 1]);
    }
  }

  /** With the table that MakeMasters and MakeRouter build from a configuration, a frame on a wire is on the wire of the actor
      that was made for the last configured master whose ranges contain its unit id, or else for the last one without ranges. */
  lemma WireFollowsConfiguration(states: seq<System>, events: seq<Gateway.Event>, n: nat, k: nat,
                                 configs: seq<Routing.MasterConfig>, ids: seq<ActorId>, noId: ActorId)
    requires IsRun(states, events) && n < |states| && k < |states[n].wire|
    requires |configs| == |ids| && configs != []
    requires Routing.Table(Routing.Arranged(Routing.Created(configs, ids)), noId) <= states[0].route
    ensures var s, w := states[n], states[n].wire[k];
            && w.tag < |s.accepted|
            && (s.accepted[w.tag].frame.unitId < Routing.TABLE_SIZE ==>
                  Routing.IsRoute(configs, ids, noId, s.accepted[w.tag].frame.unitId, w.master))
  {
    RunIsRouted(states, events, n);
    assert RoutedTo(states[n], states[n].wire[k].tag, states[n].wire[k].master);
    var unitId := states[n].accepted[states[n].wire[k].tag].frame.unitId;
    Routing.RouteOfConfiguration(configs, ids, noId, unitId);
  }
}
