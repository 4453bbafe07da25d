/** What the gateway as a whole promises, for every run: any number of slaves that come and go, any masters and routes, any
    order of deliveries and completions, any timeouts. */
module GatewayTheorems {
  import opened Messages
  import opened PendingIo
  import opened Masters
  import opened Gateway
  import opened GatewayInvariant
  import GatewayProvenance
  import GatewaySteps
  import Slave

  /** At most once: no request is answered twice, and the frames a slave writes map injectively to requests which that very
      slave accepted, with the same transaction id: each frame used up the record of one. */
  lemma AtMostOnce(states: seq<System>, events: seq<Gateway.Event>, n: nat)
    requires IsRun(states, events) && n < |states|
    ensures var s := states[n];
            && (forall k :: 0 <= k < |s.written| ==>
                  var w := s.written[k];
                  && w.consumed.tag < |s.accepted|
                  && s.accepted[w.consumed.tag].incarnation == w.incarnation
                  && s.accepted[w.consumed.tag].info == w.consumed
                  && w.consumed.transactionId == w.info.transactionId && w.consumed.sourceId == w.info.sourceId)
            && (forall i, j :: 0 <= i < j < |s.written| ==> s.written[i].consumed.tag != s.written[j].consumed.tag)
            && (forall i, j :: 0 <= i < j < |s.written| ==> s.written[i].info.tag != s.written[j].info.tag)
  {
    var pl := GatewaySteps.RunInv(states, events, n);
    forall k | 0 <= k < |states[n].written| ensures WrittenOneOk(states[n], pl, states[n].written[k]) {
    }
  }

  /** Every frame a master begins to write carries the unit id and the PDU of an accepted request in the framing of that
      master, and no request is put on a wire twice. */
  lemma WireCarriesRequests(states: seq<System>, events: seq<Gateway.Event>, n: nat)
    requires IsRun(states, events) && n < |states|
    ensures var s := states[n];
            && (forall k :: 0 <= k < |s.wire| ==>
                  var w := s.wire[k];
                  && w.tag < |s.accepted| && w.master in s.masters
                  && PayloadOf(w.frame) == PayloadOf(s.accepted[w.tag].frame)
                  && w.frame.frameType == Masters.TypeOf(s.masters[w.master])
                  && (w.frame.frameType.TCP? ==> w.frame.transactionId == w.id))
            && (forall i, j :: 0 <= i < j < |s.wire| ==> s.wire[i].tag != s.wire[j].tag)
  {
    var pl := GatewaySteps.RunInv(states, events, n);
  }

  /** Every frame a slave begins to write carries what a master read, at step i, as the reply to the request of that tag, in the
      framing of the slave; and to a TCP client it carries the transaction id which that client sent, at step j, with the request
      whose record it used up, although every TCP master on the way wrote its own id into the request's buffer. */
  lemma WrittenCarriesReplyAndClientId(states: seq<System>, events: seq<Gateway.Event>, n: nat, k: nat)
    returns (i: nat, j: nat)
    requires IsRun(states, events) && n < |states| && k < |states[n].written|
    ensures var s, w := states[n], states[n].written[k];
            && w.info.tag in s.replies && PayloadOf(w.frame) == s.replies[w.info.tag]
            && i < n && w.info.tag in s.origins
            && GatewayProvenance.ReadsReply(states[i], events[i], w.info.tag, s.origins[w.info.tag], PayloadOf(w.frame))
            && w.frame.frameType == Slave.TypeOf(w.kind)
            && j < n && w.consumed.tag < |s.accepted|
            && GatewayProvenance.ReadsRequest(events[j], s.accepted[w.consumed.tag])
            && (w.kind.Connection? ==> w.frame.transactionId == events[j].read.request.frame.transactionId)
  {
    var pl := GatewaySteps.RunInv(states, events, n);
    assert WrittenOneOk(states[n], pl, states[n].written[k]);
    i := GatewayProvenance.ReplyFromRead(states, events, n, states[n].written[k].info.tag);
    var joined;
    joined, j := GatewayProvenance.RequestFromRead(states, events, n, states[n].written[k].consumed.tag);
  }

  // ---------- no aliasing ----------

  /** The places a live buffer can be in: a letter, a message held by a master, a pending read of a master, a pending read or
      write of a slave. */
  datatype Slot =
    | Letter(i: nat)
    | HeldBy(id: ActorId, i: nat)
    | ReadBy(id: ActorId, i: nat)
    | PendingAt(id: ActorId, i: nat)

  predicate Occupied(s: System, slot: Slot) {
    match slot
    case Letter(i) => i < |s.mail|
    case HeldBy(id, i) => id in s.masters && i < |Held(PipeOf(s.masters[id]))|
    case ReadBy(id, i) => id in s.masters && i < |IoOf(s.masters[id]).reading|
    case PendingAt(id, i) => id in s.slaves && i < |s.slaves[id].slave.reading + s.slaves[id].slave.writing|
  }

  function BufferAt(s: System, slot: Slot): nat
    requires Occupied(s, slot)
  {
    match slot
    case Letter(i) => s.mail[i].msg.buffer
    case HeldBy(id, i) => Held(PipeOf(s.masters[id]))[i].buffer
    case ReadBy(id, i) => IoOf(s.masters[id]).reading[i].buffer
    case PendingAt(id, i) => (s.slaves[id].slave.reading + s.slaves[id].slave.writing)[i]
  }

  function PlaceOf(s: System, slot: Slot): Place
    requires Occupied(s, slot)
  {
    match slot
    case Letter(_) => InMail
    case HeldBy(id, _) => AtMaster(id)
    case ReadBy(id, _) => AtMaster(id)
    case PendingAt(id, _) => AtSlave(s.slaves[id].incarnation)
  }

  lemma BufferIsPlaced(s: System, pl: Places, slot: Slot)
    requires GatewayInvariant.Inv(s, pl) && Occupied(s, slot)
    ensures var b := BufferAt(s, slot); b in pl.buffers && pl.buffers[b] == PlaceOf(s, slot)
  {
    hide Masters.Inv, RecordOk, WireOk, AcceptedOk;
    match slot
    case Letter(i) => assert LetterOk(s, pl, s.mail[i]);
    case HeldBy(id, i) =>
      assert MasterOk(s, pl, id);
      assert HeldOk(s, pl, id, Held(PipeOf(s.masters[id]))[i]);
    case ReadBy(id, i) => assert MasterOk(s, pl, id);
    case PendingAt(id, i) =>
      assert SlaveOk(s, pl, id);
      assert BufferAt(s, slot) in s.slaves[id].slave.reading + s.slaves[id].slave.writing;
  }

  /** No aliasing: in every reachable state two different slots hold different buffers, so converting one message in place
      never changes another. */
  lemma NoAliasing(states: seq<System>, events: seq<Gateway.Event>, n: nat, a: Slot, b: Slot)
    requires IsRun(states, events) && n < |states|
    requires Occupied(states[n], a) && Occupied(states[n], b) && a != b
    ensures BufferAt(states[n], a) != BufferAt(states[n], b)
  {
    var s := states[n];
    var pl := GatewaySteps.RunInv(states, events, n);
    BufferIsPlaced(s, pl, a);
    BufferIsPlaced(s, pl, b);
    if PlaceOf(s, a) == PlaceOf(s, b) {
      SamePlace(s, pl, a, b);
    }
  }

  lemma SamePlace(s: System, pl: Places, a: Slot, b: Slot)
    requires GatewayInvariant.Inv(s, pl) && Occupied(s, a) && Occupied(s, b) && a != b
    requires PlaceOf(s, a) == PlaceOf(s, b)
    ensures BufferAt(s, a) != BufferAt(s, b)
  {
    match a
    case Letter(i) =>
      assert i < b.i ==> Differ(s.mail[i].msg, s.mail[b.i].msg);
      assert b.i < i ==> Differ(s.mail[b.i].msg, s.mail[i].msg);
    case HeldBy(id, _) => SameMaster(s, pl, id, a, b);
    case ReadBy(id, _) => SameMaster(s, pl, id, a, b);
    case PendingAt(id, _) => assert SlaveOk(s, pl, id);
  }

  lemma SameMaster(s: System, pl: Places, id: ActorId, a: Slot, b: Slot)
    requires id in s.masters && MasterOk(s, pl, id) && Occupied(s, a) && Occupied(s, b) && a != b
    requires (a.HeldBy? || a.ReadBy?) && (b.HeldBy? || b.ReadBy?) && a.id == id && b.id == id
    ensures BufferAt(s, a) != BufferAt(s, b)
  {
    var m := s.masters[id];
    var held := Held(PipeOf(m));
    assert Count(IoOf(m)) <= 1;
    if a.HeldBy? && b.HeldBy? {
      assert Apart(held);
      assert a.i < b.i ==> Differ(held[a.i], held[b.i]);
      assert b.i < a.i ==> Differ(held[b.i], held[a.i]);
    } else if a.HeldBy? {
      assert held[a.i] in held;
    } else if b.HeldBy? {
      assert held[b.i] in held;
    }
  }
}
