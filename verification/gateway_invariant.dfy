/** The inductive invariant of the composed gateway: where every message and every buffer is, and what it contains. */
module GatewayInvariant {
  import opened Messages
  import opened PendingIo
  import opened Masters
  import opened Gateway
  import Slave

  /** The one place where a live message or buffer is. */
  datatype Place = InMail | AtMaster(id: ActorId) | AtSlave(incarnation: nat) | Done

  datatype Places = Places(tags: map<nat, Place>, buffers: map<nat, Place>)

  predicate At(pl: Places, m: Msg, place: Place) {
    && m.info.tag in pl.tags && pl.tags[m.info.tag] == place
    && m.buffer in pl.buffers && pl.buffers[m.buffer] == place
  }

  /** A live message carries the info of the request it stems from; its buffer holds the payload of that request, or, once a
      master has made the response, the payload that was read for it. */
  predicate Sane(s: System, m: Msg) {
    var t := m.info.tag;
    && t < |s.accepted| && s.accepted[t].info == m.info && m.buffer in s.heap
    && PayloadOf(s.heap[m.buffer]) == if t in s.replies then s.replies[t] else PayloadOf(s.accepted[t].frame)
  }

  ghost predicate OffWire(s: System, tag: nat) {
    forall k :: 0 <= k < |s.wire| ==> s.wire[k].tag != tag
  }

  /** A letter is a request on its way to a routed id, or a response on its way to its source. */
  ghost predicate LetterOk(s: System, pl: Places, env: Envelope) {
    && At(pl, env.msg, InMail)
    && Sane(s, env.msg)
    && if env.msg.info.tag in s.replies then env.to == env.msg.info.sourceId
       else env.to in s.route && OffWire(s, env.msg.info.tag)
  }

  ghost predicate MailOk(s: System, pl: Places) {
    && (forall i :: 0 <= i < |s.mail| ==> LetterOk(s, pl, s.mail[i]))
    && (forall i, j :: 0 <= i < j < |s.mail| ==> Differ(s.mail[i].msg, s.mail[j].msg))
  }

  /** A request held by a master has no response yet; as long as it is queued it was not on the wire either. */
  ghost predicate HeldOk(s: System, pl: Places, id: ActorId, m: Msg) {
    At(pl, m, AtMaster(id)) && Sane(s, m) && m.info.tag !in s.replies
  }

  ghost predicate ReadsOk(pl: Places, id: ActorId, held: seq<Msg>, io: Io) {
    forall i :: 0 <= i < |io.reading| ==>
      var b := io.reading[i].buffer;
      && b in pl.buffers && pl.buffers[b] == AtMaster(id)
      && forall x :: x in held ==> x.buffer != b
  }

  /** While a write is pending, the buffer being written holds the frame of the request in the slot: nobody else's in-place
      conversion can touch it. */
  ghost predicate WriteOk(s: System, m: Master) {
    IoOf(m).writing != [] && PipeOf(m).current.Some? && PipeOf(m).current.value.msg.buffer in s.heap ==>
      var f := s.heap[PipeOf(m).current.value.msg.buffer];
      f.frameType == Masters.TypeOf(m) && (f.frameType.TCP? ==> f.transactionId == PipeOf(m).current.value.id)
  }

  ghost predicate MasterOk(s: System, pl: Places, id: ActorId)
    requires id in s.masters
  {
    var m := s.masters[id];
    var p := PipeOf(m);
    && Masters.Inv(m)
    && Apart(Held(p))
    && (forall x :: x in Held(p) ==> HeldOk(s, pl, id, x))
    && (forall x :: x in p.queue ==> OffWire(s, x.info.tag))
    && ReadsOk(pl, id, Held(p), IoOf(m))
    && WriteOk(s, m)
  }

  ghost predicate Distinct(b: seq<nat>) {
    forall i, j :: 0 <= i < j < |b| ==> b[i] != b[j]
  }

  /** The record of a slave is a request it accepted itself, and has not been used up. */
  ghost predicate RecordOk(s: System, p: Peer) {
    p.slave.record.Some? ==>
      var t := p.slave.record.value.tag;
      && t < |s.accepted| && s.accepted[t].info == p.slave.record.value && p.slave.record.value.sourceId == p.slave.id
      && s.accepted[t].incarnation == p.incarnation && s.accepted[t].kind == p.slave.kind
      && forall k :: 0 <= k < |s.written| ==> s.written[k].consumed.tag != t
  }

  /** The buffers of the pending reads and writes of a slave are different, and are its own. */
  ghost predicate BuffersOk(pl: Places, p: Peer) {
    var buffers := p.slave.reading + p.slave.writing;
    && Distinct(buffers)
    && (forall b :: b in buffers ==> b in pl.buffers && pl.buffers[b] == AtSlave(p.incarnation))
  }

  ghost predicate SlaveOk(s: System, pl: Places, id: ActorId)
    requires id in s.slaves
  {
    var p := s.slaves[id];
    && p.slave.id == id && p.incarnation < s.births
    && id !in s.masters && id !in s.route
    && BuffersOk(pl, p)
    && RecordOk(s, p)
  }

  ghost predicate AcceptedOk(s: System) {
    && (forall t :: 0 <= t < |s.accepted| ==>
          var a := s.accepted[t];
          && a.info.tag == t && a.incarnation < s.births && a.info.sourceId !in s.masters
          && a.frame.frameType == Slave.TypeOf(a.kind)
          && (a.kind.Connection? ==> a.info.transactionId == a.frame.transactionId))
    && (forall t :: t in s.replies ==> t < |s.accepted|)
  }

  /** What goes on a wire is the payload of the accepted request in the framing of the master, for every request at most
      once. */
  ghost predicate WireOk(s: System) {
    && (forall k :: 0 <= k < |s.wire| ==>
          var w := s.wire[k];
          && w.tag < |s.accepted| && w.master in s.masters
          && PayloadOf(w.frame) == PayloadOf(s.accepted[w.tag].frame)
          && w.frame.frameType == Masters.TypeOf(s.masters[w.master])
          && (w.frame.frameType.TCP? ==> w.frame.transactionId == w.id))
    && (forall i, j :: 0 <= i < j < |s.wire| ==> s.wire[i].tag != s.wire[j].tag)
  }

  /** What a slave writes is the payload a master read for that request, in the framing of the slave; the record it used up
      is one of its own requests, of the same identifier; no request is answered twice, and no record used twice. */
  ghost predicate WrittenOneOk(s: System, pl: Places, w: Written) {
    var t, c := w.info.tag, w.consumed.tag;
    && t < |s.accepted| && s.accepted[t].info == w.info
    && c < |s.accepted| && s.accepted[c].info == w.consumed
    && s.accepted[c].incarnation == w.incarnation && s.accepted[c].kind == w.kind
    && w.consumed.sourceId == w.info.sourceId && w.consumed.transactionId == w.info.transactionId
    && t in s.replies && PayloadOf(w.frame) == s.replies[t]
    && w.frame.frameType == Slave.TypeOf(w.kind)
    && (w.kind.Connection? ==> w.frame.transactionId == w.info.transactionId)
    && t in pl.tags && pl.tags[t] == Done
  }

  ghost predicate WrittenOk(s: System, pl: Places) {
    && (forall k :: 0 <= k < |s.written| ==> WrittenOneOk(s, pl, s.written[k]))
    && (forall i, j :: 0 <= i < j < |s.written| ==>
          && s.written[i].info.tag != s.written[j].info.tag
          && s.written[i].consumed.tag != s.written[j].consumed.tag)
  }

  ghost predicate PlacesOk(s: System, pl: Places) {
    && (forall b :: b in pl.buffers ==> b in s.heap)
    && (forall t :: t in pl.tags ==> t < |s.accepted|)
  }

  ghost predicate Inv(s: System, pl: Places) {
    && AcceptedOk(s) && PlacesOk(s, pl) && MailOk(s, pl) && WireOk(s) && WrittenOk(s, pl)
    && MastersOk(s, pl) && SlavesOk(s, pl)
  }

  ghost predicate MastersOk(s: System, pl: Places) {
    forall id :: id in s.masters ==> MasterOk(s, pl, id)
  }

  ghost predicate SlavesOk(s: System, pl: Places) {
    && (forall id :: id in s.slaves ==> SlaveOk(s, pl, id))
    && (forall a, b :: a in s.slaves && b in s.slaves && a != b ==> s.slaves[a].incarnation != s.slaves[b].incarnation)
  }

  // ---------- frame lemmas ----------

  /** t changes nothing that the messages and buffers at a place depend on, if it is a place untouched by the step. */
  ghost predicate Undisturbed(s: System, pl: Places, t: System, pl': Places, place: Place) {
    s.accepted <= t.accepted && BuffersUndisturbed(s, pl, t, pl', place) && TagsUndisturbed(s, pl, t, pl', place)
  }

  ghost predicate BuffersUndisturbed(s: System, pl: Places, t: System, pl': Places, place: Place) {
    forall b :: b in pl.buffers && pl.buffers[b] == place ==>
      b in pl'.buffers && pl'.buffers[b] == place && (b in s.heap ==> b in t.heap && t.heap[b] == s.heap[b])
  }

  ghost predicate TagsUndisturbed(s: System, pl: Places, t: System, pl': Places, place: Place) {
    forall g :: g in pl.tags && pl.tags[g] == place ==>
      && g in pl'.tags && pl'.tags[g] == place
      && (g in s.replies <==> g in t.replies) && (g in s.replies ==> s.replies[g] == t.replies[g])
      && (OffWire(s, g) ==> OffWire(t, g))
  }

  lemma SaneKept(s: System, pl: Places, t: System, pl': Places, place: Place, m: Msg)
    requires Undisturbed(s, pl, t, pl', place) && At(pl, m, place) && Sane(s, m)
    ensures At(pl', m, place) && Sane(t, m)
    ensures m.info.tag in s.replies <==> m.info.tag in t.replies
    ensures OffWire(s, m.info.tag) ==> OffWire(t, m.info.tag)
  {
  }

  lemma MailKept(s: System, pl: Places, t: System, pl': Places)
    requires MailOk(s, pl) && Undisturbed(s, pl, t, pl', InMail) && t.mail == s.mail && t.route == s.route
    ensures MailOk(t, pl')
  {
    forall i | 0 <= i < |t.mail| ensures LetterOk(t, pl', t.mail[i]) {
      SaneKept(s, pl, t, pl', InMail, s.mail[i].msg);
    }
  }

  lemma MasterKept(s: System, pl: Places, t: System, pl': Places, id: ActorId)
    requires id in s.masters && MasterOk(s, pl, id) && Undisturbed(s, pl, t, pl', AtMaster(id))
    requires id in t.masters && t.masters[id] == s.masters[id]
    ensures MasterOk(t, pl', id)
  {
    var p := PipeOf(s.masters[id]);
    forall x | x in Held(p) ensures HeldOk(t, pl', id, x) && (OffWire(s, x.info.tag) ==> OffWire(t, x.info.tag)) {
      assert HeldOk(s, pl, id, x);
      SaneKept(s, pl, t, pl', AtMaster(id), x);
    }
    forall x | x in p.queue ensures OffWire(t, x.info.tag) {
      assert x in Held(p);
    }
    if p.current.Some? {
      assert p.current.value.msg in Held(p);
    }
  }

  lemma MastersKept(s: System, pl: Places, t: System, pl': Places)
    requires MastersOk(s, pl) && t.masters == s.masters
    requires forall id :: id in s.masters ==> Undisturbed(s, pl, t, pl', AtMaster(id))
    ensures MastersOk(t, pl')
  {
    forall id | id in t.masters ensures MasterOk(t, pl', id) {
      MasterKept(s, pl, t, pl', id);
    }
  }

  lemma SlaveKept(s: System, pl: Places, t: System, pl': Places, id: ActorId)
    requires id in s.slaves && SlaveOk(s, pl, id) && Undisturbed(s, pl, t, pl', AtSlave(s.slaves[id].incarnation))
    requires id in t.slaves && t.slaves[id] == s.slaves[id]
    requires t.masters.Keys == s.masters.Keys && t.route == s.route && s.births <= t.births && t.written == s.written
    ensures SlaveOk(t, pl', id)
  {
  }

  lemma WrittenKept(s: System, pl: Places, t: System, pl': Places)
    requires WrittenOk(s, pl) && Undisturbed(s, pl, t, pl', Done) && t.written == s.written
    ensures WrittenOk(t, pl')
  {
    forall k | 0 <= k < |t.written| ensures WrittenOneOk(t, pl', t.written[k]) {
      assert WrittenOneOk(s, pl, s.written[k]);
    }
  }
}
