/** Where requests, replies and letters come from: the events of the run, read without the functions that make the steps. */
module GatewayProvenance {
  import opened Messages
  import opened Pipeline
  import opened PendingIo
  import opened Masters
  import opened Gateway
  import opened GatewayInvariant
  import GatewayExact
  import GatewayMasters
  import GatewaySlaves
  import GatewaySteps
  import MasterRuns
  import RtuMasterRuns
  import Slave
  import SlaveRuns
  import TcpClientRuns

  // ---------- requests ----------

  /** The request that a step reads off its event: its info, and the frame that the slave was sent. */
  function RequestIn(s: System, e: Gateway.Event): Option<Accepted> {
    if e.SlaveRead? && e.id in s.slaves && e.read.ReadDone? then
      var p := s.slaves[e.id];
      var info := SlaveRuns.RequestIn(e.id, p.slave.kind, |p.slave.accepted| + 1, e.read);
      if info == [] then None else Some(Accepted(info[0], p.slave.kind, p.incarnation, e.read.request.frame))
    else None
  }

  /** The letter by which a request sets out: to where its unit id is routed, with the buffer it was read into. */
  function RequestLetter(s: System, e: Gateway.Event): seq<Envelope>
    requires Gateway.Enabled(s, e)
  {
    var a := RequestIn(s, e);
    if a.None? then []
    else [Envelope(s.route[a.value.frame.unitId], Msg(a.value.info, s.slaves[e.id].slave.reading[e.read.read]))]
  }

  ghost predicate SlavesInv(s: System) {
    forall id :: id in s.slaves ==> Slave.Inv(s.slaves[id].slave) && s.slaves[id].slave.id == id
  }

  lemma RunSlavesInv(states: seq<System>, events: seq<Gateway.Event>, n: nat)
    requires IsRun(states, events) && n < |states|
    ensures SlavesInv(states[n])
  {
    hide Slave.Inv, IsRun;
    forall id | id in states[n].slaves ensures Slave.Inv(states[n].slaves[id].slave) && states[n].slaves[id].slave.id == id {
      var ss, es, at := GatewaySlaves.SlaveProjection(states, events, n, id);
      Slave.RunInv(ss, es, |es|);
      SlaveRuns.AcceptsExactly(ss, es, |es|);
    }
  }

  lemma StepAccepts(s: System, e: Gateway.Event)
    requires SlavesInv(s) && Gateway.Enabled(s, e)
    ensures var t, a := Gateway.Step(s, e), RequestIn(s, e);
            t.accepted == s.accepted + (if a.Some? then [a.value] else [])
  {
    hide Gateway.Step, SlaveRuns.RequestIn, Slave.RequestInfo, Slave.Inv;
    GatewayExact.AcceptedGrows(s, e);
    if e.SlaveRead? {
      SlaveRuns.MakesRequest(s.slaves[e.id].slave, e.read);
    }
  }

  // ---------- replies ----------

  /** A read that a master completed with a whole frame while the exchange was alive. */
  function FrameRead(e: Masters.Event): Option<(nat, Reply)> {
    match e
    case RtuEvent(ReadDone(i, alive, ec, r, _)) => if alive && ec.Ok? && r.sizeOk && r.checkOk then Some((i, r)) else None
    case TcpEvent(ReceiveDone(i, alive, ec, r, _)) => if alive && ec.Ok? && r.sizeOk && r.checkOk then Some((i, r)) else None
    case _ => None
  }

  /** An answer: the request it is taken for, the buffer it was read into, and the frame. */
  datatype Answer = Answer(request: Msg, buffer: nat, reply: Reply)

  /** The answer that a step of a master reads off its event: a whole frame is taken for the latest dispatch; on TCP it must
      carry the number of that dispatch. */
  function AnswerOf(m: Master, e: Masters.Event): Option<Answer> {
    var f, d := FrameRead(e), PipeOf(m).log.dispatched;
    if f.None? || d == [] || f.value.0 >= |IoOf(m).reading| then None
    else if m.Tcp? && f.value.1.transactionId != |d| % ID_SPACE then None
    else Some(Answer(d[|d| - 1].msg, IoOf(m).reading[f.value.0].buffer, f.value.1))
  }

  lemma MasterAnswers(m: Master, e: Masters.Event)
    requires Masters.Inv(m) && Masters.Enabled(m, e)
    ensures var a, d := AnswerOf(m, e), |PipeOf(m).log.dispatched|;
            PipeOf(Masters.Step(m, e)).log.delivered == PipeOf(m).log.delivered +
            if a.Some? then [Delivery(d - 1, Msg(a.value.request.info, a.value.buffer), a.value.reply.answers)] else []
  {
    if m.Rtu? {
      RtuMasterRuns.StepDelivers(m.rtu, e.rtu);
    } else {
      TcpClientRuns.StepDelivers(m.tcp, e.tcp);
    }
  }

  lemma EffectAnswers(m: Master, e: Masters.Event)
    requires Masters.Inv(m) && Masters.Enabled(m, e)
    ensures var a, o := AnswerOf(m, e), EffectOf(m, e);
            if a.None? then o.response.None?
            else
              && o.response == Some(Msg(a.value.request.info, a.value.buffer)) && o.answers == a.value.reply.answers
              && o.read.Some? && PayloadOf(o.read.value.1) == a.value.reply.payload
  {
    hide Masters.Step, Masters.Inv;
    MasterAnswers(m, e);
  }

  function AnswerIn(s: System, e: Gateway.Event): Option<Answer> {
    if e.MasterDone? && e.id in s.masters then AnswerOf(s.masters[e.id], e.done) else None
  }

  /** The letter by which an answer sets out: to the source of the request, under the info saved with it. */
  function AnswerLetter(s: System, e: Gateway.Event): seq<Envelope> {
    match AnswerIn(s, e)
    case Some(a) => [Envelope(a.request.info.sourceId, Msg(a.request.info, a.buffer))]
    case None => []
  }

  /** One handler of a master keeps the answer it reads, if any, as the reply to a request that had none. */
  lemma DoneAnswers(s: System, pl: Places, id: ActorId, done: Masters.Event)
    requires GatewaySteps.MasterEnabled(s, pl, id, done)
    ensures var t, a := MasterStep(s, id, done), AnswerOf(s.masters[id], done);
            if a.None? then t.replies == s.replies && t.origins == s.origins && t.mail == s.mail
            else
              var info := a.value.request.info;
              && info.tag !in s.replies
              && t.replies == s.replies[info.tag := a.value.reply.payload]
              && t.origins == s.origins[info.tag := Origin(id, a.value.reply.answers)]
              && t.mail == s.mail + [Envelope(info.sourceId, Msg(info, a.value.buffer))]
  {
    hide Masters.Step, Masters.Inv, AnswerOf, EffectOf;
    assert MasterOk(s, pl, id);
    EffectAnswers(s.masters[id], done);
    GatewaySteps.MasterFacts(s, pl, id, done);
  }

  /** A letter that reaches a master is no answer. */
  lemma ReceiveAnswersNothing(m: Master, msg: Msg, clock: Clock)
    ensures AnswerOf(m, Receive(m, msg, clock)).None?
  {
  }

  /** The replies are changed by the answers in the events and by nothing else. */
  lemma StepAnswers(s: System, pl: Places, e: Gateway.Event)
    requires GatewayInvariant.Inv(s, pl) && Gateway.Enabled(s, e)
    ensures var t, a := Gateway.Step(s, e), AnswerIn(s, e);
            if a.None? then t.replies == s.replies && t.origins == s.origins
            else
              var tag := a.value.request.info.tag;
              && tag !in s.replies
              && t.replies == s.replies[tag := a.value.reply.payload]
              && t.origins == s.origins[tag := Origin(e.id, a.value.reply.answers)]
  {
    hide MasterStep, AnswerOf;
    if e.MasterDone? {
      GatewaySteps.DoneIsEnabled(s, pl, e.id, e.done);
      DoneAnswers(s, pl, e.id, e.done);
    } else if e.Deliver? && s.mail[e.index].to in s.masters {
      DeliverAnswersNothing(s, pl, e);
    } else {
      GatewayMasters.OtherStepKeeps(s, e);
    }
  }

  lemma DeliverAnswersNothing(s: System, pl: Places, e: Gateway.Event)
    requires GatewayInvariant.Inv(s, pl) && Gateway.Enabled(s, e) && e.Deliver? && s.mail[e.index].to in s.masters
    ensures var t := Gateway.Step(s, e);
            t.replies == s.replies && t.origins == s.origins && t.mail == Remove(s.mail, e.index)
  {
    hide MasterStep, AnswerOf;
    var i, clock := e.index, e.clock;
    var id := s.mail[i].to;
    GatewaySteps.DeliverToMasterIsEnabled(s, pl, i, clock);
    GatewaySteps.DeliverIsReceive(s, i, clock);
    ReceiveAnswersNothing(s.masters[id], s.mail[i].msg, clock);
    DoneAnswers(GatewaySteps.Take(s, i), GatewaySteps.Taken(pl, s.mail[i].msg, AtMaster(id), AtMaster(id)), id,
                Receive(s.masters[id], s.mail[i].msg, clock));
  }

  // ---------- letters ----------

  /** Requests and answers are put into the mail, a letter that is delivered leaves it, and nothing else happens to the mail. */
  lemma StepPosts(s: System, pl: Places, e: Gateway.Event)
    requires GatewayInvariant.Inv(s, pl) && SlavesInv(s) && Gateway.Enabled(s, e)
    ensures Gateway.Step(s, e).mail ==
            (if e.Deliver? then Remove(s.mail, e.index) else s.mail) + RequestLetter(s, e) + AnswerLetter(s, e)
  {
    hide MasterStep, AnswerOf, SlaveRuns.RequestIn, Slave.Inv, GatewayInvariant.Inv;
    match e
    case Join(_, _, _) =>
    case Leave(_) =>
    case SlaveRead(id, r) => SlaveRuns.MakesRequest(s.slaves[id].slave, r);
    case SlaveWrote(_, _) =>
    case Deliver(i, clock) =>
      if s.mail[i].to in s.masters {
        DeliverAnswersNothing(s, pl, e);
      }
    case MasterDone(id, done) =>
      GatewaySteps.DoneIsEnabled(s, pl, id, done);
      DoneAnswers(s, pl, id, done);
  }

  // ---------- whole runs ----------

  /** Every accepted request was read by a slave, whole, while the exchange was alive: the frame kept for it is the frame in
      that event, and its info says when, by whom and, on the TCP side, under which identifier of the client. The slave joined
      as the kind recorded, and has not left since. */
  lemma {:induction false} RequestFromRead(states: seq<System>, events: seq<Gateway.Event>, n: nat, tag: nat)
    returns (j: nat, k: nat)
    requires IsRun(states, events) && n < |states| && tag < |states[n].accepted|
    ensures j < k < n && |states[k].accepted| == tag
    ensures var a := states[n].accepted[tag];
            && ReadsRequest(events[k], a)
            && events[j].Join? && events[j].id == a.info.sourceId && events[j].kind == a.kind
            && states[j].births == a.incarnation
            && (forall i :: j < i < k ==> !GatewaySlaves.ComesOrGoes(events[i], a.info.sourceId))
  {
    hide Gateway.Step, RequestIn;
    assert n > 0;
    assert Follows(states, events, n - 1);
    RunSlavesInv(states, events, n - 1);
    StepAccepts(states[n - 1], events[n - 1]);
    if tag < |states[n - 1].accepted| {
      j, k := RequestFromRead(states, events, n - 1, tag);
    } else {
      k := n - 1;
      RequestIsRead(states[k], events[k]);
      var ss, es, at := GatewaySlaves.SlaveProjection(states, events, k, events[k].id);
      SlaveRuns.AcceptsExactly(ss, es, |es|);
      j := at[0];
    }
  }

  /** The event brings this request. */
  predicate ReadsRequest(e: Gateway.Event, a: Accepted) {
    && e.SlaveRead? && e.id == a.info.sourceId && e.read.ReadDone?
    && e.read.exchangeAlive && e.read.end.Data? && e.read.request.sizeOk && e.read.request.checkOk
    && e.read.request.frame == a.frame && e.read.now == a.info.createTimeStamp && e.read.tag == a.info.tag
    && !a.info.timeoutReached
    && (a.kind.Connection? ==> a.info.transactionId == e.read.request.frame.transactionId)
  }

  lemma RequestIsRead(s: System, e: Gateway.Event)
    requires RequestIn(s, e).Some?
    ensures ReadsRequest(e, RequestIn(s, e).value)
    ensures e.id in s.slaves
    ensures var p, a := s.slaves[e.id], RequestIn(s, e).value; a.kind == p.slave.kind && a.incarnation == p.incarnation
  {
  }

  /** Nothing that was accepted changes, and nothing that is to be accepted is left out. */
  lemma {:induction false} ReadIsAccepted(states: seq<System>, events: seq<Gateway.Event>, n: nat, k: nat)
    requires IsRun(states, events) && k < n < |states| && RequestIn(states[k], events[k]).Some?
    ensures |states[k].accepted| < |states[n].accepted|
    ensures states[n].accepted[|states[k].accepted|] == RequestIn(states[k], events[k]).value
  {
    assert Follows(states, events, k);
    RunSlavesInv(states, events, k);
    StepAccepts(states[k], events[k]);
    GatewayExact.AcceptedPrefix(states, events, k + 1, n);
  }

  /** Every reply kept is the contents of a whole frame that a master read, as its event gives it, for the request that was its
      latest dispatch then. */
  lemma {:induction false} ReplyFromRead(states: seq<System>, events: seq<Gateway.Event>, n: nat, tag: nat) returns (k: nat)
    requires IsRun(states, events) && n < |states| && tag in states[n].replies
    ensures k < n && tag in states[n].origins
    ensures ReadsReply(states[k], events[k], tag, states[n].origins[tag], states[n].replies[tag])
  {
    hide Gateway.Step, AnswerIn;
    assert n > 0;
    assert Follows(states, events, n - 1);
    var pl := GatewaySteps.RunInv(states, events, n - 1);
    StepAnswers(states[n - 1], pl, events[n - 1]);
    if tag in states[n - 1].replies {
      k := ReplyFromRead(states, events, n - 1, tag);
    } else {
      k := n - 1;
      AnswerIsRead(states[k], events[k]);
    }
  }

  /** The event completes a read of this master, with this payload as the reply, and the request is its latest dispatch. */
  predicate ReadsReply(s: System, e: Gateway.Event, tag: nat, origin: Origin, payload: Payload) {
    && e.MasterDone? && e.id == origin.master && e.id in s.masters
    && var d := PipeOf(s.masters[e.id]).log.dispatched;
       && d != [] && d[|d| - 1].msg.info.tag == tag
       && match e.done
          case RtuEvent(ReadDone(_, alive, ec, r, _)) =>
            && alive && ec.Ok? && r.sizeOk && r.checkOk && r.payload == payload && r.answers == origin.answers
          case TcpEvent(ReceiveDone(_, alive, ec, r, _)) =>
            && alive && ec.Ok? && r.sizeOk && r.checkOk && r.payload == payload && r.answers == origin.answers
            && (s.masters[e.id].Tcp? ==> r.transactionId == |d| % ID_SPACE)
          case _ => false
  }

  lemma AnswerIsRead(s: System, e: Gateway.Event)
    requires AnswerIn(s, e).Some?
    ensures var a := AnswerIn(s, e).value;
            ReadsReply(s, e, a.request.info.tag, Origin(e.id, a.reply.answers), a.reply.payload)
  {
  }

  /** An answer that a master reads is kept as the reply, and never changes. */
  lemma {:induction false} AnswerIsKept(states: seq<System>, events: seq<Gateway.Event>, n: nat, k: nat)
    requires IsRun(states, events) && k < n < |states| && AnswerIn(states[k], events[k]).Some?
    ensures var a := AnswerIn(states[k], events[k]).value;
            && a.request.info.tag in states[n].replies && a.request.info.tag in states[n].origins
            && states[n].replies[a.request.info.tag] == a.reply.payload
            && states[n].origins[a.request.info.tag] == Origin(events[k].id, a.reply.answers)
    decreases n
  {
    hide Gateway.Step, AnswerIn;
    assert Follows(states, events, n - 1);
    var pl := GatewaySteps.RunInv(states, events, n - 1);
    StepAnswers(states[n - 1], pl, events[n - 1]);
    if k < n - 1 {
      AnswerIsKept(states, events, n - 1, k);
    }
  }

  /** The letters that a step puts into the mail, and those it takes out. */
  function PostedBy(s: System, e: Gateway.Event): multiset<Envelope>
    requires Gateway.Enabled(s, e)
  {
    multiset(RequestLetter(s, e)) + multiset(AnswerLetter(s, e))
  }

  function TakenBy(s: System, e: Gateway.Event): multiset<Envelope> {
    if e.Deliver? && e.index < |s.mail| then multiset{s.mail[e.index]} else multiset{}
  }

  lemma StepConservesMail(s: System, pl: Places, e: Gateway.Event)
    requires GatewayInvariant.Inv(s, pl) && SlavesInv(s) && Gateway.Enabled(s, e)
    ensures multiset(Gateway.Step(s, e).mail) + TakenBy(s, e) == multiset(s.mail) + PostedBy(s, e)
  {
    hide Gateway.Step, RequestLetter, AnswerLetter;
    StepPosts(s, pl, e);
    if e.Deliver? {
      RemoveOne(s.mail, e.index);
    }
  }

  lemma RemoveOne(mail: seq<Envelope>, i: nat)
    requires i < |mail|
    ensures multiset(mail) == multiset(Remove(mail, i)) + multiset{mail[i]}
  {
    assert mail == mail[..i] + [mail[i]] + mail[i + 1..];
  }

  lemma Balance(taken: multiset<Envelope>, takenBy: multiset<Envelope>, postedBy: multiset<Envelope>,
                mail: multiset<Envelope>, mail': multiset<Envelope>)
    requires mail' + takenBy == mail + postedBy
    ensures taken + mail + postedBy == taken + takenBy + mail'
  {
    calc {
      taken + mail + postedBy;
      taken + (mail + postedBy);
      taken + (mail' + takenBy);
      taken + takenBy + mail';
    }
  }

  ghost function Posted(states: seq<System>, events: seq<Gateway.Event>, n: nat): multiset<Envelope>
    requires IsRun(states, events) && n <= |events|
  {
    if n == 0 then multiset{}
    else
      assert Follows(states, events, n - 1);
      Posted(states, events, n - 1) + PostedBy(states[n - 1], events[n - 1])
  }

  ghost function Taken(states: seq<System>, events: seq<Gateway.Event>, n: nat): multiset<Envelope>
    requires IsRun(states, events) && n <= |events|
  {
    if n == 0 then multiset{} else Taken(states, events, n - 1) + TakenBy(states[n - 1], events[n - 1])
  }

  /** No letter is lost or made up: every request and every answer that was put into the mail has been delivered or is still
      there, and nothing else was. */
  lemma {:induction false} MailIsConserved(states: seq<System>, events: seq<Gateway.Event>, n: nat)
    requires IsRun(states, events) && n < |states|
    ensures Posted(states, events, n) == Taken(states, events, n) + multiset(states[n].mail)
  {
    hide Gateway.Step, PostedBy, TakenBy;
    if n > 0 {
      MailIsConserved(states, events, n - 1);
      assert Follows(states, events, n - 1);
      var pl := GatewaySteps.RunInv(states, events, n - 1);
      RunSlavesInv(states, events, n - 1);
      StepConservesMail(states[n - 1], pl, events[n - 1]);
      Balance(Taken(states, events, n - 1), TakenBy(states[n - 1], events[n - 1]), PostedBy(states[n - 1], events[n - 1]),
              multiset(states[n - 1].mail), multiset(states[n].mail));
    }
  }
}
