/** The masters inside the gateway run as they do alone: every handler that runs is one step of one master's own run. */
module GatewayMasters {
  import opened Messages
  import opened Pipeline
  import opened Masters
  import opened Gateway
  import opened GatewayInvariant
  import GatewaySteps
  import MasterRuns
  import Slave

  /** Steps that are not a master's leave the masters, their wires and the replies alone. */
  lemma OtherStepKeeps(s: System, e: Gateway.Event)
    requires Gateway.Enabled(s, e) && !e.MasterDone?
    requires e.Deliver? ==> s.mail[e.index].to !in s.masters
    ensures var t := Gateway.Step(s, e);
            t.masters == s.masters && t.origins == s.origins && t.replies == s.replies && t.wire == s.wire
  {
    hide MasterStep, Slave.Step, Slave.Matches;
    match e
    case Join(_, _, _) =>
    case Leave(_) =>
    case SlaveRead(id, r) =>
    case SlaveWrote(_, _) =>
    case Deliver(i, clock) =>
  }

  /** The event that a step of the gateway is for the master with the given id, if it is one. */
  function EventFor(s: System, e: Gateway.Event, id: ActorId): Option<Masters.Event> {
    match e
    case Deliver(i, clock) =>
      if i < |s.mail| && s.mail[i].to == id && id in s.masters then Some(Receive(s.masters[id], s.mail[i].msg, clock))
      else None
    case MasterDone(other, done) => if other == id then Some(done) else None
    case _ => None
  }

  /** A step of the gateway leaves a master alone or is one step of it. */
  lemma StepProjects(s: System, e: Gateway.Event, id: ActorId)
    requires Gateway.Enabled(s, e) && id in s.masters
    ensures var t, f := Gateway.Step(s, e), EventFor(s, e, id);
            && id in t.masters
            && if f.None? then t.masters[id] == s.masters[id]
               else Masters.Enabled(s.masters[id], f.value) && t.masters[id] == Masters.Step(s.masters[id], f.value)
  {
    if e.Deliver? && s.mail[e.index].to in s.masters {
      DeliverProjects(s, e.index, e.clock, id);
    } else if !e.MasterDone? {
      OtherStepKeeps(s, e);
    }
  }

  lemma DeliverProjects(s: System, i: nat, clock: Clock, id: ActorId)
    requires i < |s.mail| && s.mail[i].to in s.masters && id in s.masters
    ensures var t, f := Gateway.Step(s, Deliver(i, clock)), EventFor(s, Deliver(i, clock), id);
            && id in t.masters
            && if f.None? then t.masters[id] == s.masters[id]
               else Masters.Enabled(s.masters[id], f.value) && t.masters[id] == Masters.Step(s.masters[id], f.value)
  {
    GatewaySteps.DeliverIsReceive(s, i, clock);
    GatewaySteps.ReceiveIsEnabled(s.masters[s.mail[i].to], s.mail[i].msg, clock);
  }

  lemma KeysKept(s: System, e: Gateway.Event)
    requires Gateway.Enabled(s, e)
    ensures Gateway.Step(s, e).masters.Keys == s.masters.Keys
  {
    if e.Deliver? && s.mail[e.index].to in s.masters {
      GatewaySteps.DeliverIsReceive(s, e.index, e.clock);
    }
  }

  /** es are exactly the events that the first n steps of the gateway are for the master, in order: the k-th of them is step
      at[k], and ms[k] is the master in the state before it. */
  ghost predicate ProjectionOf(states: seq<System>, events: seq<Gateway.Event>, n: nat, id: ActorId,
                               ms: seq<Master>, es: seq<Masters.Event>, at: seq<nat>)
    requires n <= |events| && n < |states|
  {
    && |ms| == |es| + 1 && |at| == |es|
    && (forall k :: 0 <= k < |es| ==> IsStepOf(states, events, n, id, ms[k], es[k], at[k]))
    && (forall k, l :: 0 <= k < l < |at| ==> at[k] < at[l])
    && (forall j :: 0 <= j < n && EventFor(states[j], events[j], id).Some? ==> j in at)
  }

  ghost predicate IsStepOf(states: seq<System>, events: seq<Gateway.Event>, n: nat, id: ActorId,
                           m: Master, e: Masters.Event, j: nat)
    requires n <= |events| && n < |states|
  {
    j < n && EventFor(states[j], events[j], id) == Some(e) && id in states[j].masters && states[j].masters[id] == m
  }

  /** One more step of the gateway that is not for the master. */
  lemma ProjectionWaits(states: seq<System>, events: seq<Gateway.Event>, n: nat, id: ActorId,
                        ms: seq<Master>, es: seq<Masters.Event>, at: seq<nat>)
    requires 0 < n <= |events| && n < |states| && ProjectionOf(states, events, n - 1, id, ms, es, at)
    requires EventFor(states[n - 1], events[n - 1], id).None?
    ensures ProjectionOf(states, events, n, id, ms, es, at)
  {
    forall k | 0 <= k < |es| ensures IsStepOf(states, events, n, id, ms[k], es[k], at[k]) {
      assert IsStepOf(states, events, n - 1, id, ms[k], es[k], at[k]);
    }
  }

  /** One more step that is. */
  lemma ProjectionExtends(states: seq<System>, events: seq<Gateway.Event>, n: nat, id: ActorId,
                          ms: seq<Master>, es: seq<Masters.Event>, at: seq<nat>, e: Masters.Event, m: Master)
    requires 0 < n <= |events| && n < |states| && ProjectionOf(states, events, n - 1, id, ms, es, at)
    requires IsStepOf(states, events, n, id, ms[|es|], e, n - 1)
    ensures ProjectionOf(states, events, n, id, ms + [m], es + [e], at + [n - 1])
  {
    var ms', es', at' := ms + [m], es + [e], at + [n - 1];
    forall k | 0 <= k < |es'| ensures IsStepOf(states, events, n, id, ms'[k], es'[k], at'[k]) {
      assert k < |es| ==> IsStepOf(states, events, n - 1, id, ms[k], es[k], at[k]);
    }
    forall k, l | 0 <= k < l < |at'| ensures at'[k] < at'[l] {
      assert IsStepOf(states, events, n - 1, id, ms[k], es[k], at[k]);
    }
    forall j | 0 <= j < n && EventFor(states[j], events[j], id).Some? ensures j in at' {
      if j < n - 1 {
        assert j in at;
      } else {
        assert at'[|at|] == j;
      }
    }
  }

  /** Every master in the gateway has gone through a run of its own, made of exactly the letters and completions that the
      gateway gave it. */
  lemma {:induction false} MasterProjection(states: seq<System>, events: seq<Gateway.Event>, n: nat, id: ActorId)
    returns (ms: seq<Master>, es: seq<Masters.Event>, at: seq<nat>)
    requires IsRun(states, events) && n < |states| && id in states[n].masters
    ensures MasterRuns.IsRun(ms, es) && ms[|es|] == states[n].masters[id]
    ensures ProjectionOf(states, events, n, id, ms, es, at)
  {
    hide Gateway.Step, Masters.Step, EventFor;
    if n == 0 {
      ms, es, at := [states[0].masters[id]], [], [];
    } else {
      var s, e := states[n - 1], events[n - 1];
      assert Follows(states, events, n - 1);
      KeysKept(s, e);
      StepProjects(s, e, id);
      ms, es, at := MasterProjection(states, events, n - 1, id);
      var f := EventFor(s, e, id);
      if f.None? {
        ProjectionWaits(states, events, n, id, ms, es, at);
      } else {
        var m := Masters.Step(ms[|es|], f.value);
        assert IsStepOf(states, events, n, id, ms[|es|], f.value, n - 1);
        ProjectionExtends(states, events, n, id, ms, es, at, f.value, m);
        MasterRuns.RunExtends(ms, es, f.value);
        ms, es, at := ms + [m], es + [f.value], at + [n - 1];
      }
    }
  }

  // ---------- letters and wires ----------

  /** The messages that the first n steps delivered to an actor, in order. */
  function LettersTo(states: seq<System>, events: seq<Gateway.Event>, n: nat, id: ActorId): seq<Msg>
    requires n <= |events| && n < |states|
  {
    if n == 0 then []
    else
      var mail, e := states[n - 1].mail, events[n - 1];
      LettersTo(states, events, n - 1, id) +
      if e.Deliver? && e.index < |mail| && mail[e.index].to == id then [mail[e.index].msg] else []
  }

  lemma EventForBrings(s: System, e: Gateway.Event, id: ActorId)
    requires Gateway.Enabled(s, e) && id in s.masters
    ensures var f := EventFor(s, e, id);
            (if f.None? then [] else Incoming(f.value)) ==
            if e.Deliver? && s.mail[e.index].to == id then [s.mail[e.index].msg] else []
  {
  }

  /** Every letter delivered to a master is received by it, and it receives nothing else. */
  lemma {:induction false} LettersAreReceived(states: seq<System>, events: seq<Gateway.Event>, n: nat, id: ActorId)
    requires IsRun(states, events) && n < |states| && id in states[n].masters
    ensures PipeOf(states[n].masters[id]).log.received == LettersTo(states, events, n, id)
  {
    hide Gateway.Step, Masters.Step, EventFor, Incoming;
    if n > 0 {
      var s, e := states[n - 1], events[n - 1];
      assert Follows(states, events, n - 1);
      KeysKept(s, e);
      LettersAreReceived(states, events, n - 1, id);
      StepProjects(s, e, id);
      EventForBrings(s, e, id);
      if EventFor(s, e, id).Some? {
        MasterRuns.StepReceives(s.masters[id], EventFor(s, e, id).value);
      }
    }
  }

  /** The requests that a master put on its wire, as tags and identifiers. */
  function WireOf(wire: seq<OnWire>, id: ActorId): seq<(nat, TransactionId)> {
    if wire == [] then []
    else
      var last := wire[|wire| - 1];
      WireOf(wire[..|wire| - 1], id) + if last.master == id then [(last.tag, last.id)] else []
  }

  function Numbers(dispatched: seq<Current>): seq<(nat, TransactionId)> {
    seq(|dispatched|, k requires 0 <= k < |dispatched| => (dispatched[k].msg.info.tag, dispatched[k].id))
  }

  lemma WireGrows(wire: seq<OnWire>, w: OnWire, id: ActorId)
    ensures WireOf(wire + [w], id) == WireOf(wire, id) + if w.master == id then [(w.tag, w.id)] else []
  {
    assert (wire + [w])[..|wire|] == wire;
  }

  lemma NumbersGrow(d: seq<Current>, c: Current)
    ensures Numbers(d + [c]) == Numbers(d) + [(c.msg.info.tag, c.id)]
  {
  }

  lemma EffectIsOnWire(s: System, id: ActorId, o: Effect, other: ActorId)
    requires id in s.masters && other in s.masters
    requires WireOf(s.wire, other) == Numbers(PipeOf(s.masters[other]).log.dispatched)
    requires o.started.Some? ==> o.started.value.msg.buffer in HeapAfter(s.heap, o)
    requires PipeOf(o.master).log.dispatched ==
             PipeOf(s.masters[id]).log.dispatched + if o.started.Some? then [o.started.value] else []
    ensures var t := MasterEffect(s, id, o);
            other in t.masters && WireOf(t.wire, other) == Numbers(PipeOf(t.masters[other]).log.dispatched)
  {
    hide HeapAfter, Numbers, WireOf;
    if o.started.Some? {
      var t := MasterEffect(s, id, o);
      WireGrows(s.wire, t.wire[|s.wire|], other);
      NumbersGrow(PipeOf(s.masters[id]).log.dispatched, o.started.value);
    } else {
      assert PipeOf(o.master).log.dispatched == PipeOf(s.masters[id]).log.dispatched;
      assert MasterEffect(s, id, o).wire == s.wire;
    }
  }

  lemma StartedIsInHeap(s: System, pl: Places, id: ActorId, o: Effect)
    requires GatewaySteps.Good(s, pl, id, o) && o.started.Some?
    ensures o.started.value.msg.buffer in HeapAfter(s.heap, o)
  {
    hide HeapAfter;
    assert Held(PipeOf(o.master))[0] == o.started.value.msg;
    GatewaySteps.HeldContents(s, pl, id, o, o.started.value.msg);
  }

  /** At a step of a master its wire grows by what it dispatches. */
  lemma DoneIsOnWire(s: System, pl: Places, id: ActorId, done: Masters.Event, other: ActorId)
    requires GatewaySteps.MasterEnabled(s, pl, id, done) && other in s.masters
    requires WireOf(s.wire, other) == Numbers(PipeOf(s.masters[other]).log.dispatched)
    ensures var t := MasterStep(s, id, done);
            other in t.masters && WireOf(t.wire, other) == Numbers(PipeOf(t.masters[other]).log.dispatched)
  {
    hide Masters.Step, Masters.Inv, HeapAfter, MasterEffect, GatewaySteps.Good, WireOf, Numbers;
    var m, o := s.masters[id], EffectOf(s.masters[id], done);
    MasterRuns.StepDispatches(m, done);
    GatewaySteps.MasterFacts(s, pl, id, done);
    if o.started.Some? {
      StartedIsInHeap(s, pl, id, o);
    }
    EffectIsOnWire(s, id, o, other);
  }

  lemma StepWires(s: System, pl: Places, e: Gateway.Event, id: ActorId)
    requires GatewayInvariant.Inv(s, pl) && Gateway.Enabled(s, e) && id in s.masters
    requires WireOf(s.wire, id) == Numbers(PipeOf(s.masters[id]).log.dispatched)
    ensures var t := Gateway.Step(s, e);
            id in t.masters && WireOf(t.wire, id) == Numbers(PipeOf(t.masters[id]).log.dispatched)
  {
    hide WireOf, Numbers, MasterStep;
    if e.MasterDone? {
      GatewaySteps.DoneIsEnabled(s, pl, e.id, e.done);
      DoneIsOnWire(s, pl, e.id, e.done, id);
    } else if e.Deliver? && s.mail[e.index].to in s.masters {
      var i, to := e.index, s.mail[e.index].to;
      GatewaySteps.DeliverToMasterIsEnabled(s, pl, i, e.clock);
      GatewaySteps.DeliverIsReceive(s, i, e.clock);
      DoneIsOnWire(GatewaySteps.Take(s, i), GatewaySteps.Taken(pl, s.mail[i].msg, AtMaster(to), AtMaster(to)), to,
                   Receive(s.masters[to], s.mail[i].msg, e.clock), id);
    } else {
      OtherStepKeeps(s, e);
    }
  }

  /** In every run, the frames on the wire of a master are those of its dispatches, all of them and in order. */
  lemma {:induction false} WireIsDispatched(states: seq<System>, events: seq<Gateway.Event>, n: nat, id: ActorId)
    requires IsRun(states, events) && n < |states| && id in states[n].masters
    ensures WireOf(states[n].wire, id) == Numbers(PipeOf(states[n].masters[id]).log.dispatched)
  {
    hide Gateway.Step;
    if n > 0 {
      var s, e := states[n - 1], events[n - 1];
      assert Follows(states, events, n - 1);
      KeysKept(s, e);
      WireIsDispatched(states, events, n - 1, id);
      var pl := GatewaySteps.RunInv(states, events, n - 1);
      StepWires(s, pl, e, id);
    }
  }
}
