/** Exactly when a response is written for the request it was made for, and by the slave that accepted that request. */
module GatewayExact {
  import opened Messages
  import opened Gateway
  import opened GatewayInvariant
  import GatewayIdentity
  import GatewaySteps
  import Slave

  /** A letter reaches a slave and uses up its record, so that a frame is written. */
  predicate Answers(s: System, e: Gateway.Event) {
    && e.Deliver? && e.index < |s.mail|
    && s.mail[e.index].to !in s.masters && s.mail[e.index].to in s.slaves
    && Slave.Matches(s.slaves[s.mail[e.index].to].slave, s.mail[e.index].msg.info)
  }

  /** Since this request was accepted, another one of the same slave was accepted under the same transaction id. */
  ghost predicate Superseded(s: System, info: Info) {
    exists c :: info.tag < c < |s.accepted| && SameId(s.accepted[c].info, info)
  }

  predicate SameId(a: Info, b: Info) {
    a.sourceId == b.sourceId && a.transactionId == b.transactionId
  }

  ghost predicate SupersededAnswer(s: System, e: Gateway.Event) {
    Answers(s, e) && Superseded(s, s.mail[e.index].msg.info)
  }

  // ---------- the very request ----------

  /** The record of a slave is of the latest request accepted with its actor id. */
  ghost predicate RecordsAreLatest(s: System) {
    forall id :: id in s.slaves && s.slaves[id].slave.record.Some? ==> IsLatest(s, id, s.slaves[id].slave.record.value.tag)
  }

  ghost predicate IsLatest(s: System, id: ActorId, tag: nat) {
    forall c :: tag < c < |s.accepted| ==> s.accepted[c].info.sourceId != id
  }

  lemma AcceptedGrows(s: System, e: Gateway.Event)
    requires Gateway.Enabled(s, e)
    ensures Gateway.Step(s, e).accepted ==
            s.accepted + if e.SlaveRead? && Slave.Accepts(e.read) then
                           [Accepted(GatewayIdentity.NewInfo(s, e), s.slaves[e.id].slave.kind, s.slaves[e.id].incarnation,
                                     e.read.request.frame)]
                         else []
  {
    if e.Deliver? && s.mail[e.index].to in s.masters {
      GatewaySteps.DeliverIsReceive(s, e.index, e.clock);
    }
  }

  lemma StepKeepsLatest(s: System, pl: Places, e: Gateway.Event)
    requires SlavesOk(s, pl) && RecordsAreLatest(s) && Gateway.Enabled(s, e)
    ensures RecordsAreLatest(Gateway.Step(s, e))
  {
    hide Step;
    var t := Gateway.Step(s, e);
    AcceptedGrows(s, e);
    forall id | id in t.slaves && t.slaves[id].slave.record.Some?
      ensures IsLatest(t, id, t.slaves[id].slave.record.value.tag)
    {
      GatewayIdentity.StepSlaves(s, e, id);
      if e.SlaveRead? && Slave.Accepts(e.read) {
        assert SlaveOk(s, pl, e.id);
        GatewayIdentity.ReadSetsRecord(s, e);
      }
    }
  }

  lemma {:induction false} RunKeepsLatest(states: seq<System>, events: seq<Gateway.Event>, n: nat)
    requires IsRun(states, events) && n < |states|
    ensures RecordsAreLatest(states[n])
  {
    hide Step;
    if n > 0 {
      RunKeepsLatest(states, events, n - 1);
      var pl := GatewaySteps.RunInv(states, events, n - 1);
      assert Follows(states, events, n - 1);
      StepKeepsLatest(states[n - 1], pl, events[n - 1]);
    }
  }

  /** The frame that a step writes. */
  ghost predicate Writes(s: System, e: Gateway.Event, w: Written)
    requires Gateway.Enabled(s, e)
  {
    Answers(s, e) && Gateway.Step(s, e).written == s.written + [w]
  }

  /** A step that answers writes one frame, with the info of the letter and the record of the slave; no other step writes. */
  lemma StepWrites(s: System, pl: Places, e: Gateway.Event)
    requires GatewayInvariant.Inv(s, pl) && Gateway.Enabled(s, e)
    ensures var t := Gateway.Step(s, e);
            if Answers(s, e) then
              exists w :: Writes(s, e, w) && w.info == s.mail[e.index].msg.info && w.info.sourceId == s.mail[e.index].to
                          && s.slaves[w.info.sourceId].slave.record == Some(w.consumed)
                          && w.incarnation == s.slaves[w.info.sourceId].incarnation
            else t.written == s.written
  {
    if Answers(s, e) {
      AnswerWrites(s, pl, e);
    } else if e.Deliver? && s.mail[e.index].to !in s.masters && s.mail[e.index].to in s.slaves {
      GatewaySteps.DeliverIsSlaveReceive(s, e.index, e.clock);
      GatewaySteps.UnmatchedChangesNothing(GatewaySteps.Take(s, e.index), s.mail[e.index].to, s.mail[e.index].msg);
    } else {
      GatewayIdentity.OthersWriteNothing(s, e);
    }
  }

  lemma AnswerWrites(s: System, pl: Places, e: Gateway.Event)
    requires MailOk(s, pl) && SlavesOk(s, pl) && Answers(s, e) && Gateway.Enabled(s, e)
    ensures exists w :: Writes(s, e, w) && w.info == s.mail[e.index].msg.info && w.info.sourceId == s.mail[e.index].to
                        && s.slaves[w.info.sourceId].slave.record == Some(w.consumed)
                        && w.incarnation == s.slaves[w.info.sourceId].incarnation
  {
    var id, m := s.mail[e.index].to, s.mail[e.index].msg;
    assert LetterOk(s, pl, s.mail[e.index]) && SlaveOk(s, pl, id);
    GatewaySteps.DeliverIsSlaveReceive(s, e.index, e.clock);
    var w := Gateway.Step(s, e).written[|s.written|];
    assert Writes(s, e, w);
  }

  /** A response is for the request whose record it uses up if and only if no later request of that slave was accepted under
      the same transaction id: then the latest such request gets it instead. */
  lemma AnswerIsExactIff(s: System, pl: Places, e: Gateway.Event, w: Written)
    requires GatewayInvariant.Inv(s, pl) && RecordsAreLatest(s) && Gateway.Enabled(s, e) && Writes(s, e, w)
    ensures w.consumed.tag == w.info.tag <==> !Superseded(s, w.info)
  {
    hide Step, MasterStep, AcceptedOk;
    StepWrites(s, pl, e);
    var id := s.mail[e.index].to;
    assert Gateway.Step(s, e).written[|s.written|] == w;
    assert LetterOk(s, pl, s.mail[e.index]) && SlaveOk(s, pl, id);
    assert IsLatest(s, id, w.consumed.tag);
    if w.consumed.tag != w.info.tag {
      assert w.info.tag < w.consumed.tag && SameId(s.accepted[w.consumed.tag].info, w.info);
    }
  }

  ghost predicate AllExact(s: System) {
    forall k :: 0 <= k < |s.written| ==> s.written[k].consumed.tag == s.written[k].info.tag
  }

  /** In every run, all frames written are for the request whose record they used up if and only if no response was delivered
      after its request had been superseded. */
  lemma {:induction false} ExactIff(states: seq<System>, events: seq<Gateway.Event>, n: nat)
    requires IsRun(states, events) && n < |states|
    ensures AllExact(states[n]) <==> forall k :: 0 <= k < n ==> !SupersededAnswer(states[k], events[k])
  {
    if n > 0 {
      ExactIff(states, events, n - 1);
      ExactNext(states, events, n - 1);
    }
  }

  lemma ExactNext(states: seq<System>, events: seq<Gateway.Event>, n: nat)
    requires IsRun(states, events) && n < |events|
    ensures AllExact(states[n + 1]) <==> AllExact(states[n]) && !SupersededAnswer(states[n], events[n])
  {
    var pl := GatewaySteps.RunInv(states, events, n);
    assert Follows(states, events, n);
    RunKeepsLatest(states, events, n);
    ExactStep(states[n], pl, events[n]);
  }

  lemma OneMoreFrame(s: System, t: System, w: Written)
    requires t.written == s.written + [w]
    ensures AllExact(t) <==> AllExact(s) && w.consumed.tag == w.info.tag
  {
    assert t.written[|s.written|] == w;
    assert forall k :: 0 <= k < |s.written| ==> t.written[k] == s.written[k];
  }

  lemma ExactStep(s: System, pl: Places, e: Gateway.Event)
    requires GatewayInvariant.Inv(s, pl) && RecordsAreLatest(s) && Gateway.Enabled(s, e)
    ensures AllExact(Gateway.Step(s, e)) <==> AllExact(s) && !SupersededAnswer(s, e)
  {
    StepWrites(s, pl, e);
    if Answers(s, e) {
      var w :| Writes(s, e, w) && w.info == s.mail[e.index].msg.info;
      AnswerIsExactIff(s, pl, e, w);
      OneMoreFrame(s, Gateway.Step(s, e), w);
    }
  }

  // ---------- the same slave ----------

  predicate Joins(e: Gateway.Event, id: ActorId) {
    e.Join? && e.id == id
  }

  lemma StepBirths(s: System, e: Gateway.Event)
    requires Gateway.Enabled(s, e)
    ensures var t := Gateway.Step(s, e);
            && t.births == s.births + (if e.Join? then 1 else 0)
            && (e.Join? ==> e.id in t.slaves && t.slaves[e.id].incarnation == s.births)
  {
    if e.Deliver? && s.mail[e.index].to in s.masters {
      GatewaySteps.DeliverIsReceive(s, e.index, e.clock);
    }
  }

  lemma {:induction false} Lives(states: seq<System>, events: seq<Gateway.Event>, k: nat, n: nat, id: ActorId)
    requires IsRun(states, events) && k <= n < |states|
    ensures states[k].births <= states[n].births
    ensures id in states[n].slaves ==>
              if exists j :: k <= j < n && Joins(events[j], id) then states[n].slaves[id].incarnation >= states[k].births
              else id in states[k].slaves && states[n].slaves[id].incarnation == states[k].slaves[id].incarnation
    decreases n
  {
    if n > k {
      Lives(states, events, k, n - 1, id);
      assert Follows(states, events, n - 1);
      StepBirths(states[n - 1], events[n - 1]);
      if id in states[n].slaves {
        GatewayIdentity.StepSlaves(states[n - 1], events[n - 1], id);
      }
    }
  }

  /** An actor id belongs to the same slave at two times if and only if no slave joined under it in between. */
  lemma IncarnationIff(states: seq<System>, events: seq<Gateway.Event>, k: nat, n: nat, id: ActorId)
    requires IsRun(states, events) && k <= n < |states| && id in states[k].slaves && id in states[n].slaves
    ensures states[k].slaves[id].incarnation == states[n].slaves[id].incarnation <==>
            forall j :: k <= j < n ==> !Joins(events[j], id)
  {
    Lives(states, events, k, n, id);
    var pl := GatewaySteps.RunInv(states, events, k);
    assert SlaveOk(states[k], pl, id);
  }

  lemma {:induction false} AcceptedPrefix(states: seq<System>, events: seq<Gateway.Event>, k: nat, n: nat)
    requires IsRun(states, events) && k <= n < |states|
    ensures states[k].accepted <= states[n].accepted
    decreases n
  {
    if n > k {
      AcceptedPrefix(states, events, k, n - 1);
      assert Follows(states, events, n - 1);
      AcceptedGrows(states[n - 1], events[n - 1]);
    }
  }

  /** The step that accepted a request, and the slave that did. */
  lemma {:induction false} AcceptanceOf(states: seq<System>, events: seq<Gateway.Event>, n: nat, tag: nat) returns (a: nat)
    requires IsRun(states, events) && n < |states| && tag < |states[n].accepted|
    ensures a < n && |states[a].accepted| == tag && |states[a + 1].accepted| == tag + 1
    ensures var id := states[n].accepted[tag].info.sourceId;
            id in states[a + 1].slaves && states[a + 1].slaves[id].incarnation == states[n].accepted[tag].incarnation
    ensures !events[a].Join?
  {
    assert n > 0;
    assert Follows(states, events, n - 1);
    AcceptedGrows(states[n - 1], events[n - 1]);
    if tag < |states[n - 1].accepted| {
      a := AcceptanceOf(states, events, n - 1, tag);
    } else {
      a := n - 1;
      var pl := GatewaySteps.RunInv(states, events, n - 1);
      AcceptedByReader(states[n - 1], pl, events[n - 1]);
    }
  }

  lemma AcceptedByReader(s: System, pl: Places, e: Gateway.Event)
    requires SlavesOk(s, pl) && Gateway.Enabled(s, e) && |Gateway.Step(s, e).accepted| > |s.accepted|
    ensures var t := Gateway.Step(s, e);
            && |t.accepted| == |s.accepted| + 1 && !e.Join?
            && var r := t.accepted[|s.accepted|];
               r.info.sourceId in t.slaves && t.slaves[r.info.sourceId].incarnation == r.incarnation
  {
    AcceptedGrows(s, e);
    assert SlaveOk(s, pl, e.id);
    GatewayIdentity.ReadChanges(s, e, e.id);
  }

  /** A slave has joined under the source id of a request since the request was accepted. */
  ghost predicate Reused(states: seq<System>, events: seq<Gateway.Event>, n: nat, info: Info)
    requires n <= |events| && n <= |states|
  {
    exists j :: 0 <= j < n && info.tag < |states[j].accepted| && Joins(events[j], info.sourceId)
  }

  ghost predicate ReusedAnswer(states: seq<System>, events: seq<Gateway.Event>, n: nat)
    requires n < |events| && n < |states|
  {
    Answers(states[n], events[n]) && Reused(states, events, n, states[n].mail[events[n].index].msg.info)
  }

  /** The source id of an accepted request still belongs to the slave that accepted it if and only if it was not used again. */
  lemma HomeIff(states: seq<System>, events: seq<Gateway.Event>, n: nat, tag: nat)
    requires IsRun(states, events) && n < |states| && tag < |states[n].accepted| && states[n].accepted[tag].info.tag == tag
    requires states[n].accepted[tag].info.sourceId in states[n].slaves
    ensures var r := states[n].accepted[tag];
            states[n].slaves[r.info.sourceId].incarnation == r.incarnation <==> !Reused(states, events, n, r.info)
  {
    var info := states[n].accepted[tag].info;
    var a := AcceptanceOf(states, events, n, tag);
    IncarnationIff(states, events, a + 1, n, info.sourceId);
    forall j | 0 <= j < n ensures tag < |states[j].accepted| <==> j > a {
      if j <= a {
        AcceptedPrefix(states, events, j, a);
      } else {
        AcceptedPrefix(states, events, a + 1, j);
      }
    }
  }

  ghost predicate AllHome(s: System) {
    forall k :: 0 <= k < |s.written| ==> IsHome(s, s.written[k])
  }

  predicate IsHome(s: System, w: Written) {
    w.info.tag < |s.accepted| && s.accepted[w.info.tag].incarnation == w.incarnation
  }

  /** In every run, all frames were written by the slaves that accepted the requests they are for if and only if no response
      was delivered after the actor id of its slave had been given to another. */
  lemma {:induction false} AllHomeIff(states: seq<System>, events: seq<Gateway.Event>, n: nat)
    requires IsRun(states, events) && n < |states|
    ensures AllHome(states[n]) <==> forall k :: 0 <= k < n ==> !ReusedAnswer(states, events, k)
  {
    if n > 0 {
      AllHomeIff(states, events, n - 1);
      AllHomeStep(states, events, n - 1);
    }
  }

  lemma AllHomeStep(states: seq<System>, events: seq<Gateway.Event>, n: nat)
    requires IsRun(states, events) && n < |events|
    ensures AllHome(states[n + 1]) <==> AllHome(states[n]) && !ReusedAnswer(states, events, n)
  {
    hide Step, Slave.Step;
    var s, t, e := states[n], states[n + 1], events[n];
    var pl := GatewaySteps.RunInv(states, events, n);
    assert Follows(states, events, n);
    AcceptedGrows(s, e);
    OldFramesStayHome(s, pl, t);
    StepWrites(s, pl, e);
    if Answers(s, e) {
      var w :| Writes(s, e, w) && w.info == s.mail[e.index].msg.info && w.info.sourceId == s.mail[e.index].to
               && w.incarnation == s.slaves[w.info.sourceId].incarnation;
      assert LetterOk(s, pl, s.mail[e.index]);
      HomeIff(states, events, n, w.info.tag);
      assert t.written[|s.written|] == w && forall k :: 0 <= k < |s.written| ==> t.written[k] == s.written[k];
    }
  }

  lemma OldFramesStayHome(s: System, pl: Places, t: System)
    requires WrittenOk(s, pl) && s.accepted <= t.accepted
    ensures forall k :: 0 <= k < |s.written| ==> (IsHome(s, s.written[k]) <==> IsHome(t, s.written[k]))
  {
    forall k | 0 <= k < |s.written| ensures IsHome(s, s.written[k]) <==> IsHome(t, s.written[k]) {
      assert WrittenOneOk(s, pl, s.written[k]);
    }
  }

  // ---------- conditions that can be kept ----------

  /** It suffices that no request is accepted under a transaction id that an outstanding message of its slave carries. */
  lemma FreshIdsSuffice(states: seq<System>, events: seq<Gateway.Event>, n: nat)
    requires IsRun(states, events) && n < |states|
    requires forall k :: 0 <= k < |events| ==>
               Gateway.Enabled(states[k], events[k]) && GatewayIdentity.FreshTransactionId(states[k], events[k])
    ensures forall k :: 0 <= k < n ==> !SupersededAnswer(states[k], events[k])
  {
    GatewayIdentity.AnswersTheVeryRequest(states, events, n);
    ExactIff(states, events, n);
  }

  /** It suffices that no actor id is given to a new slave while a message with that source is outstanding. */
  lemma NoReuseSuffices(states: seq<System>, events: seq<Gateway.Event>, n: nat)
    requires IsRun(states, events) && n < |states|
    requires forall k :: 0 <= k < |events| ==> GatewayIdentity.NoReuse(states[k], events[k])
    ensures forall k :: 0 <= k < n ==> !ReusedAnswer(states, events, k)
  {
    GatewayIdentity.AnsweredBySameSlave(states, events, n);
    var pl := GatewaySteps.RunInv(states, events, n);
    forall k | 0 <= k < |states[n].written| ensures IsHome(states[n], states[n].written[k]) {
      assert WrittenOneOk(states[n], pl, states[n].written[k]);
      assert GatewayIdentity.WrittenHome(states[n], states[n].written[k]);
    }
    AllHomeIff(states, events, n);
  }
}
