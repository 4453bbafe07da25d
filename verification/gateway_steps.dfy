/** Every step of the composed gateway keeps the invariant. */
module GatewaySteps {
  import opened Messages
  import opened Pipeline
  import opened PendingIo
  import opened Masters
  import opened Gateway
  import opened GatewayInvariant
  import Slave

  // ---------- steps of a master ----------

  /** What a handler is given is a request that the master does not hold yet. */
  ghost predicate Handed(s: System, pl: Places, id: ActorId, incoming: seq<Msg>)
    requires id in s.masters
  {
    var m := s.masters[id];
    && Apart(Held(PipeOf(m)) + incoming)
    && (forall x :: x in incoming ==> HeldOk(s, pl, id, x) && OffWire(s, x.info.tag))
    && (forall x, i :: x in incoming && 0 <= i < |IoOf(m).reading| ==> IoOf(m).reading[i].buffer != x.buffer)
  }

  ghost predicate MasterEnabled(s: System, pl: Places, id: ActorId, e: Masters.Event) {
    && GatewayInvariant.Inv(s, pl) && id in s.masters && Masters.Enabled(s.masters[id], e)
    && Handed(s, pl, id, Incoming(e))
    && (Allocated(e).Some? ==> Allocated(e).value !in s.heap)
  }

  /** A response moves into the mail with the buffer that was read; a buffer allocated for a read is the master's. */
  function PlacesAfter(pl: Places, id: ActorId, o: Effect): Places {
    var tags := if o.response.Some? then pl.tags[o.response.value.info.tag := InMail] else pl.tags;
    var buffers := if o.response.Some? then pl.buffers[o.response.value.buffer := InMail] else pl.buffers;
    Places(tags, if o.newBuffer.Some? then buffers[o.newBuffer.value := AtMaster(id)] else buffers)
  }

  /** What the rest of the gateway needs to know about the outcome of a handler. */
  ghost predicate Good(s: System, pl: Places, id: ActorId, o: Effect) {
    var q := PipeOf(o.master);
    && Apart(Held(q))
    && (forall x :: x in Held(q) ==> HeldOk(s, pl, id, x))
    && (forall x :: x in q.queue ==> OffWire(s, x.info.tag))
    && (o.read.Some? ==> ReadGood(pl, id, Held(q), o.read.value.0))
    && (o.newBuffer.Some? ==> o.newBuffer.value !in s.heap && o.read.None?)
    && (o.started.Some? ==> q.current == o.started && OffWire(s, o.started.value.msg.info.tag))
    && (o.response.Some? ==> o.read.Some? && ResponseGood(s, pl, id, Held(q), o.response.value, o.read.value.0))
    && ReadsGood(pl, id, Held(q), o)
    && WriteGood(s, o)
  }

  /** The buffer that was read belongs to the master and to none of the messages it still holds. */
  ghost predicate ReadGood(pl: Places, id: ActorId, held: seq<Msg>, b: nat) {
    b in pl.buffers && pl.buffers[b] == AtMaster(id) && forall x :: x in held ==> x.buffer != b
  }

  /** The response has the info of a request that the master held and holds no more, and the buffer that was read. */
  ghost predicate ResponseGood(s: System, pl: Places, id: ActorId, held: seq<Msg>, r: Msg, b: nat) {
    var t := r.info.tag;
    && r.buffer == b
    && t < |s.accepted| && s.accepted[t].info == r.info && t !in s.replies
    && t in pl.tags && pl.tags[t] == AtMaster(id)
    && forall x :: x in held ==> x.info.tag != t
  }

  /** A pending read is into the new buffer, or was pending before. */
  ghost predicate ReadsGood(pl: Places, id: ActorId, held: seq<Msg>, o: Effect) {
    forall i :: 0 <= i < |IoOf(o.master).reading| ==>
      var b := IoOf(o.master).reading[i].buffer;
      o.newBuffer == Some(b) || (o.read.None? && ReadGood(pl, id, held, b))
  }

  /** A pending write is of the message just started, or was pending before with the frame it should have. */
  ghost predicate WriteGood(s: System, o: Effect) {
    o.started.None? ==> WriteOk(s, o.master)
  }

  lemma MasterFacts(s: System, pl: Places, id: ActorId, e: Masters.Event)
    requires MasterEnabled(s, pl, id, e)
    ensures Masters.Inv(Masters.Step(s.masters[id], e))
    ensures Good(s, pl, id, EffectOf(s.masters[id], e))
  {
    var m := s.masters[id];
    var m' := Masters.Step(m, e);
    assert MasterOk(s, pl, id);
    StepFlows(m, e);
    Masters.StepKeepsInv(m, e);
    FlowIsGood(s, pl, id, e, m, m');
  }

  lemma HeldFacts(s: System, pl: Places, id: ActorId, p: Pipe, incoming: seq<Msg>, q: Pipe)
    requires Apart(Held(p) + incoming)
    requires forall x :: x in Held(p) ==> HeldOk(s, pl, id, x)
    requires forall x :: x in p.queue ==> OffWire(s, x.info.tag)
    requires forall x :: x in incoming ==> HeldOk(s, pl, id, x) && OffWire(s, x.info.tag)
    requires Keeps(Held(p) + incoming, Held(q)) && Queues(p, q, incoming)
    ensures Apart(Held(p)) && Apart(Held(q))
    ensures forall x :: x in Held(q) ==> HeldOk(s, pl, id, x)
    ensures forall x :: x in q.queue ==> OffWire(s, x.info.tag)
    ensures Started(p, q).Some? ==> OffWire(s, Started(p, q).value.msg.info.tag)
  {
    ApartPrefix(Held(p), incoming);
    forall x | x in Held(q) ensures HeldOk(s, pl, id, x) {
      assert x in Held(p) + incoming;
    }
    forall x | x in p.queue + incoming ensures OffWire(s, x.info.tag) {
    }
  }

  /** A buffer that is being read belongs to no message held, before and after. */
  lemma ReadStaysGood(s: System, pl: Places, id: ActorId, m: Master, incoming: seq<Msg>, q: Pipe, b: nat)
    requires id in s.masters && m == s.masters[id] && ReadsOk(pl, id, Held(PipeOf(m)), IoOf(m))
    requires Handed(s, pl, id, incoming) && Keeps(Held(PipeOf(m)) + incoming, Held(q))
    requires exists i :: 0 <= i < |IoOf(m).reading| && IoOf(m).reading[i].buffer == b
    ensures ReadGood(pl, id, Held(q), b)
  {
    forall x | x in Held(q) ensures x.buffer != b {
      assert x in Held(PipeOf(m)) + incoming;
    }
  }

  lemma ReadsStayGood(s: System, pl: Places, id: ActorId, e: Masters.Event, m: Master)
    requires id in s.masters && m == s.masters[id] && ReadsOk(pl, id, Held(PipeOf(m)), IoOf(m)) && Masters.Enabled(m, e)
    requires Handed(s, pl, id, Incoming(e)) && Flow(m, e)
    ensures var o := EffectOf(m, e);
            && (o.read.Some? ==> ReadGood(pl, id, Held(PipeOf(o.master)), o.read.value.0))
            && ReadsGood(pl, id, Held(PipeOf(o.master)), o)
  {
    var q, io, o := PipeOf(Masters.Step(m, e)), IoOf(Masters.Step(m, e)), EffectOf(m, e);
    CompletedIsRead(m, e);
    if o.read.Some? {
      ReadStaysGood(s, pl, id, m, Incoming(e), q, o.read.value.0);
    }
    forall i | 0 <= i < |io.reading| && o.newBuffer != Some(io.reading[i].buffer)
      ensures o.read.None? && ReadGood(pl, id, Held(q), io.reading[i].buffer)
    {
      ReadStaysGood(s, pl, id, m, Incoming(e), q, io.reading[i].buffer);
    }
  }

  lemma ResponseIsGood(s: System, pl: Places, id: ActorId, e: Masters.Event, m: Master)
    requires id in s.masters && m == s.masters[id] && Masters.Enabled(m, e) && Apart(Held(PipeOf(m)))
    requires (forall x :: x in Held(PipeOf(m)) ==> HeldOk(s, pl, id, x)) && Flow(m, e)
    ensures var o := EffectOf(m, e);
            o.response.Some? ==>
              o.read.Some? && ResponseGood(s, pl, id, Held(PipeOf(o.master)), o.response.value, o.read.value.0)
  {
    if EffectOf(m, e).response.Some? {
      var x := PipeOf(m).current.value.msg;
      assert Held(PipeOf(m))[0] == x;
      assert HeldOk(s, pl, id, x);
    }
  }

  lemma FlowIsGood(s: System, pl: Places, id: ActorId, e: Masters.Event, m: Master, m': Master)
    requires id in s.masters && m == s.masters[id] && MasterOk(s, pl, id) && Masters.Enabled(m, e)
    requires Handed(s, pl, id, Incoming(e)) && (Allocated(e).Some? ==> Allocated(e).value !in s.heap)
    requires m' == Masters.Step(m, e) && Flow(m, e)
    ensures Good(s, pl, id, EffectOf(m, e))
  {
    hide Masters.Inv, OffWire, ReadGood, ResponseGood, ReadsGood, HeldOk;
    HeldFacts(s, pl, id, PipeOf(m), Incoming(e), PipeOf(m'));
    CompletedIsRead(m, e);
    ReadsStayGood(s, pl, id, e, m);
    ResponseIsGood(s, pl, id, e, m);
  }

  lemma ApartPrefix(a: seq<Msg>, b: seq<Msg>)
    requires Apart(a + b)
    ensures Apart(a)
  {
    forall i, j | 0 <= i < j < |a| ensures Differ(a[i], a[j]) {
      assert (a + b)[i] == a[i] && (a + b)[j] == a[j];
    }
  }

  /** A completed read was pending. */
  lemma CompletedIsRead(m: Master, e: Masters.Event)
    requires Masters.Enabled(m, e)
    ensures Completed(m, e).Some? ==>
              Incoming(e) == [] && Allocated(e).None? &&
              exists i :: 0 <= i < |IoOf(m).reading| && IoOf(m).reading[i].buffer == Completed(m, e).value.0
  {
    match e
    case RtuEvent(ReadDone(i, _, _, _, _)) => assert IoOf(m).reading[i].buffer == Completed(m, e).value.0;
    case TcpEvent(ReceiveDone(i, _, _, _, _)) => assert IoOf(m).reading[i].buffer == Completed(m, e).value.0;
    case _ =>
  }


  /** A handler changes nothing outside the buffers at its master and those not allocated before. */
  lemma HeapElsewhere(s: System, pl: Places, id: ActorId, o: Effect, b: nat)
    requires Good(s, pl, id, o)
    requires b in s.heap && b in pl.buffers && pl.buffers[b] != AtMaster(id)
    ensures b in HeapAfter(s.heap, o) && HeapAfter(s.heap, o)[b] == s.heap[b]
  {
    if o.started.Some? {
      StartedIsHeld(s, pl, id, o);
    }
  }

  lemma StartedIsHeld(s: System, pl: Places, id: ActorId, o: Effect)
    requires Good(s, pl, id, o) && o.started.Some?
    ensures HeldOk(s, pl, id, o.started.value.msg)
  {
    assert Held(PipeOf(o.master))[0] == o.started.value.msg;
  }

  lemma WireElsewhere(s: System, pl: Places, id: ActorId, o: Effect, tag: nat)
    requires Good(s, pl, id, o) && OffWire(s, tag)
    requires o.started.Some? ==> o.started.value.msg.info.tag != tag
    ensures OffWire(MasterEffect(s, id, o), tag)
  {
  }

  /** A handler only touches what is at its master. */
  lemma OthersUndisturbed(s: System, pl: Places, id: ActorId, o: Effect, place: Place)
    requires Good(s, pl, id, o) && PlacesOk(s, pl) && place != AtMaster(id)
    ensures Undisturbed(s, pl, MasterEffect(s, id, o), PlacesAfter(pl, id, o), place)
  {
    var t, pl' := MasterEffect(s, id, o), PlacesAfter(pl, id, o);
    forall b | b in pl.buffers && pl.buffers[b] == place
      ensures b in pl'.buffers && pl'.buffers[b] == place && b in t.heap && t.heap[b] == s.heap[b]
    {
      HeapElsewhere(s, pl, id, o, b);
    }
    forall g | g in pl.tags && pl.tags[g] == place
      ensures g in pl'.tags && pl'.tags[g] == place
      ensures (g in s.replies <==> g in t.replies) && (g in s.replies ==> s.replies[g] == t.replies[g])
      ensures OffWire(s, g) ==> OffWire(t, g)
    {
      if o.started.Some? {
        StartedIsHeld(s, pl, id, o);
      }
      if OffWire(s, g) {
        WireElsewhere(s, pl, id, o, g);
      }
    }
  }

  /** The buffer of a message still held is unchanged, but for the conversion if the message was just dispatched. */
  lemma HeldContents(s: System, pl: Places, id: ActorId, o: Effect, x: Msg)
    requires Good(s, pl, id, o) && x in Held(PipeOf(o.master))
    ensures x.buffer in s.heap && x.buffer in HeapAfter(s.heap, o)
    ensures HeapAfter(s.heap, o)[x.buffer] ==
            if o.started.Some? && o.started.value.msg.buffer == x.buffer
            then Framed(s.heap[x.buffer], Masters.TypeOf(o.master), o.started.value.id)
            else s.heap[x.buffer]
  {
    assert HeldOk(s, pl, id, x);
  }

  lemma OwnHeld(s: System, pl: Places, id: ActorId, o: Effect, x: Msg)
    requires Good(s, pl, id, o) && x in Held(PipeOf(o.master))
    ensures HeldOk(MasterEffect(s, id, o), PlacesAfter(pl, id, o), id, x)
  {
    HeldContents(s, pl, id, o, x);
    assert HeldOk(s, pl, id, x);
  }

  /** Behind the slot, the queue holds nothing that was ever on the wire. */
  lemma OwnQueueOffWire(s: System, pl: Places, id: ActorId, o: Effect, x: Msg)
    requires Good(s, pl, id, o) && x in PipeOf(o.master).queue
    ensures OffWire(MasterEffect(s, id, o), x.info.tag)
  {
    var q := PipeOf(o.master);
    if o.started.Some? {
      var i :| 0 <= i < |q.queue| && q.queue[i] == x;
      assert Held(q)[0] == q.current.value.msg && Held(q)[i + 1] == x;
    }
    WireElsewhere(s, pl, id, o, x.info.tag);
  }

  lemma OwnWrite(s: System, pl: Places, id: ActorId, o: Effect)
    requires Good(s, pl, id, o)
    ensures WriteOk(MasterEffect(s, id, o), o.master)
  {
    var q := PipeOf(o.master);
    if q.current.Some? {
      assert Held(q)[0] == q.current.value.msg;
      HeldContents(s, pl, id, o, q.current.value.msg);
    }
  }

  lemma OwnReads(s: System, pl: Places, id: ActorId, o: Effect)
    requires Good(s, pl, id, o)
    ensures ReadsOk(PlacesAfter(pl, id, o), id, Held(PipeOf(o.master)), IoOf(o.master))
  {
    var held, io := Held(PipeOf(o.master)), IoOf(o.master);
    forall i, x | 0 <= i < |io.reading| && x in held ensures x.buffer != io.reading[i].buffer {
      assert HeldOk(s, pl, id, x);
    }
  }

  lemma OwnMaster(s: System, pl: Places, id: ActorId, o: Effect)
    requires Good(s, pl, id, o) && Masters.Inv(o.master)
    ensures MasterOk(MasterEffect(s, id, o), PlacesAfter(pl, id, o), id)
  {
    var t, pl' := MasterEffect(s, id, o), PlacesAfter(pl, id, o);
    forall x | x in Held(PipeOf(o.master)) ensures HeldOk(t, pl', id, x) {
      OwnHeld(s, pl, id, o, x);
    }
    forall x | x in PipeOf(o.master).queue ensures OffWire(t, x.info.tag) {
      OwnQueueOffWire(s, pl, id, o, x);
    }
    OwnWrite(s, pl, id, o);
    OwnReads(s, pl, id, o);
  }

  /** The response is in the mail with the payload that was read. */
  lemma NewLetter(s: System, pl: Places, id: ActorId, o: Effect)
    requires Good(s, pl, id, o) && o.response.Some?
    ensures var r := o.response.value;
            LetterOk(MasterEffect(s, id, o), PlacesAfter(pl, id, o), Envelope(r.info.sourceId, r))
  {
    if o.started.Some? {
      assert Held(PipeOf(o.master))[0] == o.started.value.msg;
    }
  }

  lemma MailAfter(s: System, pl: Places, id: ActorId, o: Effect)
    requires Good(s, pl, id, o) && PlacesOk(s, pl) && MailOk(s, pl)
    ensures MailOk(MasterEffect(s, id, o), PlacesAfter(pl, id, o))
  {
    var t, pl' := MasterEffect(s, id, o), PlacesAfter(pl, id, o);
    OthersUndisturbed(s, pl, id, o, InMail);
    forall i | 0 <= i < |t.mail| ensures LetterOk(t, pl', t.mail[i]) {
      if i < |s.mail| {
        assert LetterOk(s, pl, s.mail[i]);
        SaneKept(s, pl, t, pl', InMail, s.mail[i].msg);
      } else {
        NewLetter(s, pl, id, o);
      }
    }
    forall i, j | 0 <= i < j < |t.mail| ensures Differ(t.mail[i].msg, t.mail[j].msg) {
      assert LetterOk(s, pl, s.mail[i]);
    }
  }

  lemma WireAfter(s: System, pl: Places, id: ActorId, o: Effect)
    requires Good(s, pl, id, o) && WireOk(s)
    requires id in s.masters && Masters.TypeOf(o.master) == Masters.TypeOf(s.masters[id])
    ensures WireOk(MasterEffect(s, id, o))
  {
    if o.started.Some? {
      StartedIsHeld(s, pl, id, o);
      assert Held(PipeOf(o.master))[0] == o.started.value.msg;
      HeldContents(s, pl, id, o, o.started.value.msg);
    }
  }

  lemma MasterStepKeepsInv(s: System, pl: Places, id: ActorId, e: Masters.Event)
    requires MasterEnabled(s, pl, id, e)
    ensures GatewayInvariant.Inv(MasterStep(s, id, e), PlacesAfter(pl, id, EffectOf(s.masters[id], e)))
  {
    MasterFacts(s, pl, id, e);
    EffectKeepsInv(s, pl, id, EffectOf(s.masters[id], e));
  }

  lemma EffectKeepsInv(s: System, pl: Places, id: ActorId, o: Effect)
    requires GatewayInvariant.Inv(s, pl) && Good(s, pl, id, o) && Masters.Inv(o.master)
    requires id in s.masters && Masters.TypeOf(o.master) == Masters.TypeOf(s.masters[id])
    ensures GatewayInvariant.Inv(MasterEffect(s, id, o), PlacesAfter(pl, id, o))
  {
    var t, pl' := MasterEffect(s, id, o), PlacesAfter(pl, id, o);
    MailAfter(s, pl, id, o);
    WireAfter(s, pl, id, o);
    OthersUndisturbed(s, pl, id, o, Done);
    WrittenKept(s, pl, t, pl');
    MastersAfter(s, pl, id, o);
    SlavesAfter(s, pl, id, o);
    PlacesAfterOk(s, pl, id, o);
  }

  lemma MastersAfter(s: System, pl: Places, id: ActorId, o: Effect)
    requires Good(s, pl, id, o) && Masters.Inv(o.master) && PlacesOk(s, pl) && MastersOk(s, pl) && id in s.masters
    ensures MastersOk(MasterEffect(s, id, o), PlacesAfter(pl, id, o))
  {
    var t, pl' := MasterEffect(s, id, o), PlacesAfter(pl, id, o);
    forall other | other in t.masters ensures MasterOk(t, pl', other) {
      if other == id {
        OwnMaster(s, pl, id, o);
      } else {
        OthersUndisturbed(s, pl, id, o, AtMaster(other));
        MasterKept(s, pl, t, pl', other);
      }
    }
  }

  lemma SlavesAfter(s: System, pl: Places, id: ActorId, o: Effect)
    requires Good(s, pl, id, o) && PlacesOk(s, pl) && SlavesOk(s, pl) && id in s.masters
    ensures SlavesOk(MasterEffect(s, id, o), PlacesAfter(pl, id, o))
  {
    var t, pl' := MasterEffect(s, id, o), PlacesAfter(pl, id, o);
    forall other | other in t.slaves ensures SlaveOk(t, pl', other) {
      OthersUndisturbed(s, pl, id, o, AtSlave(s.slaves[other].incarnation));
      SlaveKept(s, pl, t, pl', other);
    }
  }

  lemma PlacesAfterOk(s: System, pl: Places, id: ActorId, o: Effect)
    requires Good(s, pl, id, o) && PlacesOk(s, pl) && AcceptedOk(s) && id in s.masters
    ensures PlacesOk(MasterEffect(s, id, o), PlacesAfter(pl, id, o)) && AcceptedOk(MasterEffect(s, id, o))
  {
    assert MasterEffect(s, id, o).masters.Keys == s.masters.Keys;
  }

  // ---------- delivery ----------

  function Take(s: System, i: nat): System
    requires i < |s.mail|
  {
    s.(mail := Remove(s.mail, i))
  }

  /** A letter is taken out of the mail; its tag and its buffer go to the given places. */
  function Taken(pl: Places, m: Msg, tagPlace: Place, bufferPlace: Place): Places {
    Places(pl.tags[m.info.tag := tagPlace], pl.buffers[m.buffer := bufferPlace])
  }

  lemma TakeUndisturbed(s: System, pl: Places, i: nat, tagPlace: Place, bufferPlace: Place, place: Place)
    requires i < |s.mail| && MailOk(s, pl) && place != InMail
    ensures Undisturbed(s, pl, Take(s, i), Taken(pl, s.mail[i].msg, tagPlace, bufferPlace), place)
  {
    assert LetterOk(s, pl, s.mail[i]);
  }

  lemma TakeKeepsMail(s: System, pl: Places, i: nat, tagPlace: Place, bufferPlace: Place)
    requires i < |s.mail| && MailOk(s, pl) && PlacesOk(s, pl)
    ensures MailOk(Take(s, i), Taken(pl, s.mail[i].msg, tagPlace, bufferPlace))
    ensures PlacesOk(Take(s, i), Taken(pl, s.mail[i].msg, tagPlace, bufferPlace))
  {
    var t, pl' := Take(s, i), Taken(pl, s.mail[i].msg, tagPlace, bufferPlace);
    assert LetterOk(s, pl, s.mail[i]);
    forall k | 0 <= k < |t.mail| ensures LetterOk(t, pl', t.mail[k]) {
      var j := if k < i then k else k + 1;
      assert t.mail[k] == s.mail[j] && LetterOk(s, pl, s.mail[j]);
      assert Differ(s.mail[j].msg, s.mail[i].msg) by {
        if j < i {
          assert Differ(s.mail[j].msg, s.mail[i].msg);
        } else {
          assert Differ(s.mail[i].msg, s.mail[j].msg);
        }
      }
      OffWireSame(s, t);
    }
    forall k, l | 0 <= k < l < |t.mail| ensures Differ(t.mail[k].msg, t.mail[l].msg) {
      assert t.mail[k] == s.mail[if k < i then k else k + 1] && t.mail[l] == s.mail[if l < i then l else l + 1];
    }
  }

  lemma OffWireSame(s: System, t: System)
    requires s.wire == t.wire
    ensures forall g :: OffWire(s, g) ==> OffWire(t, g)
  {
  }

  lemma TakeKeepsInv(s: System, pl: Places, i: nat, tagPlace: Place, bufferPlace: Place)
    requires GatewayInvariant.Inv(s, pl) && i < |s.mail|
    ensures GatewayInvariant.Inv(Take(s, i), Taken(pl, s.mail[i].msg, tagPlace, bufferPlace))
  {
    var t, pl' := Take(s, i), Taken(pl, s.mail[i].msg, tagPlace, bufferPlace);
    TakeKeepsMail(s, pl, i, tagPlace, bufferPlace);
    TakeUndisturbed(s, pl, i, tagPlace, bufferPlace, Done);
    WrittenKept(s, pl, t, pl');
    forall id | id in t.masters ensures MasterOk(t, pl', id) {
      TakeUndisturbed(s, pl, i, tagPlace, bufferPlace, AtMaster(id));
      MasterKept(s, pl, t, pl', id);
    }
    forall id | id in t.slaves ensures SlaveOk(t, pl', id) {
      TakeUndisturbed(s, pl, i, tagPlace, bufferPlace, AtSlave(s.slaves[id].incarnation));
      SlaveKept(s, pl, t, pl', id);
    }
  }

  /** A letter that reaches a master is a request, and the master does not hold it yet. */
  lemma TakenIsRequest(s: System, pl: Places, env: Envelope)
    requires AcceptedOk(s) && LetterOk(s, pl, env) && env.to in s.masters
    ensures env.msg.info.tag !in s.replies && OffWire(s, env.msg.info.tag)
  {
  }

  lemma TakenIsNotHeld(s: System, pl: Places, id: ActorId, x: Msg)
    requires id in s.masters && MasterOk(s, pl, id) && At(pl, x, InMail)
    ensures Apart(Held(PipeOf(s.masters[id])) + [x])
    ensures forall i :: 0 <= i < |IoOf(s.masters[id]).reading| ==> IoOf(s.masters[id]).reading[i].buffer != x.buffer
  {
    forall y | y in Held(PipeOf(s.masters[id])) ensures Differ(y, x) {
      assert HeldOk(s, pl, id, y);
    }
  }

  lemma TakenIsHanded(s: System, pl: Places, i: nat, id: ActorId)
    requires AcceptedOk(s) && i < |s.mail| && LetterOk(s, pl, s.mail[i])
    requires id == s.mail[i].to && id in s.masters && MasterOk(s, pl, id)
    ensures Handed(Take(s, i), Taken(pl, s.mail[i].msg, AtMaster(id), AtMaster(id)), id, [s.mail[i].msg])
  {
    TakenIsRequest(s, pl, s.mail[i]);
    TakenIsNotHeld(s, pl, id, s.mail[i].msg);
    OffWireSame(s, Take(s, i));
  }

  lemma DeliverToMasterIsEnabled(s: System, pl: Places, i: nat, clock: Clock)
    requires GatewayInvariant.Inv(s, pl) && i < |s.mail| && s.mail[i].to in s.masters
    ensures var id := s.mail[i].to;
            MasterEnabled(Take(s, i), Taken(pl, s.mail[i].msg, AtMaster(id), AtMaster(id)), id,
                          Receive(s.masters[id], s.mail[i].msg, clock))
  {
    var id := s.mail[i].to;
    TakeKeepsInv(s, pl, i, AtMaster(id), AtMaster(id));
    TakenIsHanded(s, pl, i, id);
    ReceiveIsEnabled(s.masters[id], s.mail[i].msg, clock);
  }

  lemma DeliverToMasterKeepsInv(s: System, pl: Places, i: nat, clock: Clock) returns (pl': Places)
    requires GatewayInvariant.Inv(s, pl) && i < |s.mail| && s.mail[i].to in s.masters
    ensures GatewayInvariant.Inv(Gateway.Step(s, Deliver(i, clock)), pl')
  {
    var id := s.mail[i].to;
    var t, u := Take(s, i), Taken(pl, s.mail[i].msg, AtMaster(id), AtMaster(id));
    var e := Receive(s.masters[id], s.mail[i].msg, clock);
    pl' := PlacesAfter(u, id, EffectOf(t.masters[id], e));
    DeliverToMasterIsEnabled(s, pl, i, clock);
    MasterStepKeepsInv(t, u, id, e);
    DeliverIsReceive(s, i, clock);
  }

  lemma ReceiveIsEnabled(m: Master, msg: Msg, clock: Clock)
    ensures var e := Receive(m, msg, clock);
            Masters.Enabled(m, e) && Incoming(e) == [msg] && Allocated(e).None?
  {
  }

  lemma DeliverIsReceive(s: System, i: nat, clock: Clock)
    requires i < |s.mail| && s.mail[i].to in s.masters
    ensures var id := s.mail[i].to;
            Gateway.Step(s, Deliver(i, clock)) ==
            MasterStep(Take(s, i), id, Receive(s.masters[id], s.mail[i].msg, clock))
  {
  }

  /** A letter that reaches a slave is a response; if it matches, it becomes a write. */
  lemma DeliverToSlaveKeepsInv(s: System, pl: Places, i: nat, clock: Clock) returns (pl': Places)
    requires GatewayInvariant.Inv(s, pl) && i < |s.mail| && s.mail[i].to !in s.masters && s.mail[i].to in s.slaves
    ensures GatewayInvariant.Inv(Gateway.Step(s, Deliver(i, clock)), pl')
  {
    var id, m, t := s.mail[i].to, s.mail[i].msg, Take(s, i);
    var place := AtSlave(s.slaves[id].incarnation);
    pl' := Taken(pl, m, Done, place);
    TakeKeepsInv(s, pl, i, Done, place);
    LetterAtSlave(s, pl, s.mail[i]);
    if Slave.Matches(s.slaves[id].slave, m.info) {
      WriteKeepsInv(t, pl', id, m);
    } else {
      UnmatchedChangesNothing(t, id, m);
    }
    DeliverIsSlaveReceive(s, i, clock);
  }

  lemma DeliverIsSlaveReceive(s: System, i: nat, clock: Clock)
    requires i < |s.mail| && s.mail[i].to !in s.masters && s.mail[i].to in s.slaves
    ensures Gateway.Step(s, Deliver(i, clock)) == SlaveReceive(Take(s, i), s.mail[i].to, s.mail[i].msg)
  {
  }

  lemma LetterAtSlave(s: System, pl: Places, env: Envelope)
    requires LetterOk(s, pl, env) && env.to in s.slaves && SlaveOk(s, pl, env.to) && WrittenOk(s, pl)
    ensures env.msg.info.tag in s.replies && Sane(s, env.msg)
    ensures env.msg.buffer !in s.slaves[env.to].slave.reading + s.slaves[env.to].slave.writing
    ensures forall k :: 0 <= k < |s.written| ==> s.written[k].info.tag != env.msg.info.tag
  {
    forall k | 0 <= k < |s.written| ensures s.written[k].info.tag != env.msg.info.tag {
      assert WrittenOneOk(s, pl, s.written[k]);
    }
  }

  lemma UnmatchedChangesNothing(s: System, id: ActorId, m: Msg)
    requires id in s.slaves && !Slave.Matches(s.slaves[id].slave, m.info)
    ensures SlaveReceive(s, id, m) == s
  {
  }

  lemma WriteKeepsInv(s: System, pl: Places, id: ActorId, m: Msg)
    requires GatewayInvariant.Inv(s, pl) && id in s.slaves && Slave.Matches(s.slaves[id].slave, m.info)
    requires Sane(s, m) && m.info.tag in s.replies
    requires m.info.tag in pl.tags && pl.tags[m.info.tag] == Done
    requires m.buffer in pl.buffers && pl.buffers[m.buffer] == AtSlave(s.slaves[id].incarnation)
    requires m.buffer !in s.slaves[id].slave.reading + s.slaves[id].slave.writing
    requires forall k :: 0 <= k < |s.written| ==> s.written[k].info.tag != m.info.tag
    ensures GatewayInvariant.Inv(SlaveReceive(s, id, m), pl)
  {
    var t := SlaveReceive(s, id, m);
    assert SlaveOk(s, pl, id);
    forall place | place != AtSlave(s.slaves[id].incarnation) ensures Undisturbed(s, pl, t, pl, place) {
      WriteUndisturbed(s, pl, id, m, place);
    }
    WriteKeepsRest(s, pl, id, m, t);
    WriteKeepsSlaves(s, pl, id, m);
    WriteKeepsWritten(s, pl, id, m);
  }

  lemma WriteUndisturbed(s: System, pl: Places, id: ActorId, m: Msg, place: Place)
    requires id in s.slaves && m.buffer in pl.buffers && pl.buffers[m.buffer] != place
    ensures Undisturbed(s, pl, SlaveReceive(s, id, m), pl, place)
  {
    OffWireSame(s, SlaveReceive(s, id, m));
  }

  lemma WriteKeepsRest(s: System, pl: Places, id: ActorId, m: Msg, t: System)
    requires AcceptedOk(s) && PlacesOk(s, pl) && MailOk(s, pl) && WireOk(s) && MastersOk(s, pl)
    requires id in s.slaves && t == SlaveReceive(s, id, m)
    requires forall place: Place :: !place.AtSlave? ==> Undisturbed(s, pl, t, pl, place)
    ensures AcceptedOk(t) && PlacesOk(t, pl) && MailOk(t, pl) && WireOk(t) && MastersOk(t, pl)
  {
    WriteChanges(s, id, m);
    HistoryKept(s, pl, t);
    MailKept(s, pl, t, pl);
    MastersKept(s, pl, t, pl);
  }

  /** What a response that reaches a slave leaves alone. */
  lemma WriteChanges(s: System, id: ActorId, m: Msg)
    requires id in s.slaves
    ensures var t := SlaveReceive(s, id, m);
            && t.accepted == s.accepted && t.births == s.births && t.masters == s.masters && t.wire == s.wire
            && t.replies == s.replies && t.heap.Keys == s.heap.Keys && t.mail == s.mail && t.route == s.route
  {
  }

  lemma WriteKeepsSlaves(s: System, pl: Places, id: ActorId, m: Msg)
    requires SlavesOk(s, pl) && id in s.slaves && Slave.Matches(s.slaves[id].slave, m.info) && m.buffer in s.heap
    requires m.buffer in pl.buffers && pl.buffers[m.buffer] == AtSlave(s.slaves[id].incarnation)
    requires m.buffer !in s.slaves[id].slave.reading + s.slaves[id].slave.writing
    ensures SlavesOk(SlaveReceive(s, id, m), pl)
  {
    var t := SlaveReceive(s, id, m);
    assert SlaveOk(s, pl, id);
    forall other | other in t.slaves ensures SlaveOk(t, pl, other) {
      assert SlaveOk(s, pl, other);
      if other == id {
        var before := s.slaves[id].slave.reading + s.slaves[id].slave.writing;
        assert t.slaves[id].slave.reading + t.slaves[id].slave.writing == before + [m.buffer];
      } else {
        assert RecordOk(s, s.slaves[other]) && RecordOk(s, s.slaves[id]);
      }
    }
  }

  lemma WriteKeepsWritten(s: System, pl: Places, id: ActorId, m: Msg)
    requires WrittenOk(s, pl) && id in s.slaves && SlaveOk(s, pl, id) && Slave.Matches(s.slaves[id].slave, m.info)
    requires Sane(s, m) && m.info.tag in s.replies
    requires m.info.tag in pl.tags && pl.tags[m.info.tag] == Done
    requires forall k :: 0 <= k < |s.written| ==> s.written[k].info.tag != m.info.tag
    ensures WrittenOk(SlaveReceive(s, id, m), pl)
  {
    var t := SlaveReceive(s, id, m);
    assert RecordOk(s, s.slaves[id]);
    forall k | 0 <= k < |t.written| ensures WrittenOneOk(t, pl, t.written[k]) {
      if k < |s.written| {
        assert t.written[k] == s.written[k] && WrittenOneOk(s, pl, s.written[k]);
      }
    }
  }

  // ---------- steps of the slaves ----------

  function PlacesAfterJoin(s: System, pl: Places, buffer: nat): Places {
    pl.(buffers := pl.buffers[buffer := AtSlave(s.births)])
  }

  lemma JoinKeepsInv(s: System, pl: Places, e: Gateway.Event) returns (pl': Places)
    requires GatewayInvariant.Inv(s, pl) && Gateway.Enabled(s, e) && e.Join?
    ensures GatewayInvariant.Inv(Gateway.Step(s, e), pl')
  {
    pl' := PlacesAfterJoin(s, pl, e.buffer);
    var t := Gateway.Step(s, e);
    forall place ensures Undisturbed(s, pl, t, pl', place) {
      JoinUndisturbed(s, pl, e, place);
    }
    MailKept(s, pl, t, pl');
    WrittenKept(s, pl, t, pl');
    MastersKept(s, pl, t, pl');
    JoinKeepsSlaves(s, pl, e);
  }

  lemma JoinUndisturbed(s: System, pl: Places, e: Gateway.Event, place: Place)
    requires PlacesOk(s, pl) && Gateway.Enabled(s, e) && e.Join?
    ensures Undisturbed(s, pl, Gateway.Step(s, e), PlacesAfterJoin(s, pl, e.buffer), place)
  {
    OffWireSame(s, Gateway.Step(s, e));
  }

  lemma JoinKeepsSlaves(s: System, pl: Places, e: Gateway.Event)
    requires PlacesOk(s, pl) && SlavesOk(s, pl) && Gateway.Enabled(s, e) && e.Join?
    ensures SlavesOk(Gateway.Step(s, e), PlacesAfterJoin(s, pl, e.buffer))
  {
    var t, pl' := Gateway.Step(s, e), PlacesAfterJoin(s, pl, e.buffer);
    forall id | id in t.slaves ensures SlaveOk(t, pl', id) && (id != e.id ==> t.slaves[id].incarnation != s.births) {
      if id == e.id {
        assert t.slaves[id].slave.reading + t.slaves[id].slave.writing == [e.buffer];
      } else {
        JoinUndisturbed(s, pl, e, AtSlave(s.slaves[id].incarnation));
        SlaveKept(s, pl, t, pl', id);
      }
    }
  }

  lemma LeaveKeepsInv(s: System, pl: Places, e: Gateway.Event)
    requires GatewayInvariant.Inv(s, pl) && Gateway.Enabled(s, e) && e.Leave?
    ensures GatewayInvariant.Inv(Gateway.Step(s, e), pl)
  {
    var t := Gateway.Step(s, e);
    SlaveChangeKeepsRest(s, pl, t);
    forall id | id in t.slaves ensures SlaveOk(t, pl, id) && t.slaves[id].incarnation == s.slaves[id].incarnation {
      SlaveKept(s, pl, t, pl, id);
    }
  }

  /** If only the slaves change, all but the slaves is as it should be. */
  lemma SlaveChangeKeepsRest(s: System, pl: Places, t: System)
    requires GatewayInvariant.Inv(s, pl) && t == s.(slaves := t.slaves)
    ensures AcceptedOk(t) && PlacesOk(t, pl) && MailOk(t, pl) && WireOk(t) && WrittenOk(t, pl) && MastersOk(t, pl)
    ensures forall place :: Undisturbed(s, pl, t, pl, place)
  {
    SlaveChangeUndisturbed(s, pl, t);
    MailKept(s, pl, t, pl);
    WrittenKept(s, pl, t, pl);
    MastersKept(s, pl, t, pl);
    HistoryKept(s, pl, t);
  }

  lemma SlaveChangeUndisturbed(s: System, pl: Places, t: System)
    requires t == s.(slaves := t.slaves)
    ensures forall place :: Undisturbed(s, pl, t, pl, place)
  {
    OffWireSame(s, t);
  }

  lemma HistoryKept(s: System, pl: Places, t: System)
    requires AcceptedOk(s) && PlacesOk(s, pl) && WireOk(s)
    requires t.accepted == s.accepted && t.births == s.births && t.masters == s.masters && t.wire == s.wire
    requires t.replies == s.replies && t.heap.Keys == s.heap.Keys
    ensures AcceptedOk(t) && PlacesOk(t, pl) && WireOk(t)
  {
  }

  /** A slave that gives up the buffer of a completed write. */
  lemma WroteKeepsBuffers(pl: Places, p: Peer, p': Peer, write: nat)
    requires BuffersOk(pl, p) && write < |p.slave.writing|
    requires p' == p.(slave := p.slave.(writing := Slave.Without(p.slave.writing, write)))
    ensures BuffersOk(pl, p')
  {
    WithoutStaysDistinct(p.slave.reading, p.slave.writing, write);
  }

  lemma WroteKeepsSlave(s: System, pl: Places, e: Gateway.Event, id: ActorId)
    requires Gateway.Enabled(s, e) && e.SlaveWrote? && id in s.slaves && SlaveOk(s, pl, id)
    requires Undisturbed(s, pl, Gateway.Step(s, e), pl, AtSlave(s.slaves[id].incarnation))
    ensures id in Gateway.Step(s, e).slaves && SlaveOk(Gateway.Step(s, e), pl, id)
    ensures Gateway.Step(s, e).slaves[id].incarnation == s.slaves[id].incarnation
  {
    var t := Gateway.Step(s, e);
    if id == e.id {
      WroteKeepsBuffers(pl, s.slaves[id], t.slaves[id], e.write);
    } else {
      SlaveKept(s, pl, t, pl, id);
    }
  }

  lemma WroteChangesSlaves(s: System, e: Gateway.Event)
    requires Gateway.Enabled(s, e) && e.SlaveWrote?
    ensures var t := Gateway.Step(s, e); t == s.(slaves := t.slaves) && t.slaves.Keys == s.slaves.Keys
  {
  }

  lemma WroteKeepsSlaves(s: System, pl: Places, e: Gateway.Event)
    requires Gateway.Enabled(s, e) && e.SlaveWrote? && SlavesOk(s, pl)
    requires forall place :: Undisturbed(s, pl, Gateway.Step(s, e), pl, place)
    ensures SlavesOk(Gateway.Step(s, e), pl)
  {
    var t := Gateway.Step(s, e);
    WroteChangesSlaves(s, e);
    forall id | id in t.slaves ensures SlaveOk(t, pl, id) && t.slaves[id].incarnation == s.slaves[id].incarnation {
      WroteKeepsSlave(s, pl, e, id);
    }
  }

  lemma WroteKeepsInv(s: System, pl: Places, e: Gateway.Event)
    requires GatewayInvariant.Inv(s, pl) && Gateway.Enabled(s, e) && e.SlaveWrote?
    ensures GatewayInvariant.Inv(Gateway.Step(s, e), pl)
  {
    WroteChangesSlaves(s, e);
    SlaveChangeKeepsRest(s, pl, Gateway.Step(s, e));
    WroteKeepsSlaves(s, pl, e);
  }

  lemma WithoutStaysDistinct(a: seq<nat>, b: seq<nat>, i: nat)
    requires Distinct(a + b) && i < |b|
    ensures Distinct(a + Slave.Without(b, i))
    ensures forall x :: x in a + Slave.Without(b, i) ==> x in a + b
  {
    var c, d := a + b, a + Slave.Without(b, i);
    forall k | 0 <= k < |d| ensures d[k] == c[if k < |a| + i then k else k + 1] {
    }
  }

  function PlacesAfterRead(s: System, pl: Places, id: ActorId, r: Slave.Event): Places
    requires Gateway.Enabled(s, SlaveRead(id, r))
  {
    var p := s.slaves[id];
    var buffers := pl.buffers[r.nextBuffer := AtSlave(p.incarnation)];
    if Slave.Accepts(r) then
      Places(pl.tags[r.tag := InMail], buffers[p.slave.reading[r.read] := InMail])
    else Places(pl.tags, buffers)
  }

  lemma ReadMovesBuffers(s: System, pl: Places, id: ActorId, r: Slave.Event, place: Place)
    requires Gateway.Enabled(s, SlaveRead(id, r)) && PlacesOk(s, pl) && BuffersOk(pl, s.slaves[id])
    requires place != AtSlave(s.slaves[id].incarnation)
    ensures BuffersUndisturbed(s, pl, SlaveStep(s, id, r), PlacesAfterRead(s, pl, id, r), place)
  {
    var p := s.slaves[id];
    assert p.slave.reading[r.read] in p.slave.reading + p.slave.writing;
  }

  lemma ReadMovesTags(s: System, pl: Places, id: ActorId, r: Slave.Event, place: Place)
    requires Gateway.Enabled(s, SlaveRead(id, r)) && PlacesOk(s, pl)
    ensures TagsUndisturbed(s, pl, SlaveStep(s, id, r), PlacesAfterRead(s, pl, id, r), place)
    ensures s.accepted <= SlaveStep(s, id, r).accepted
  {
    OffWireSame(s, SlaveStep(s, id, r));
  }

  lemma ReadUndisturbed(s: System, pl: Places, id: ActorId, r: Slave.Event, place: Place)
    requires Gateway.Enabled(s, SlaveRead(id, r)) && PlacesOk(s, pl) && SlaveOk(s, pl, id)
    requires place != AtSlave(s.slaves[id].incarnation)
    ensures Undisturbed(s, pl, SlaveStep(s, id, r), PlacesAfterRead(s, pl, id, r), place)
  {
    ReadMovesBuffers(s, pl, id, r, place);
    ReadMovesTags(s, pl, id, r, place);
  }

  lemma AcceptedLetter(s: System, pl: Places, id: ActorId, r: Slave.Event)
    requires Gateway.Enabled(s, SlaveRead(id, r)) && Slave.Accepts(r)
    requires PlacesOk(s, pl) && AcceptedOk(s) && WireOk(s) && SlaveOk(s, pl, id)
    ensures var t := SlaveStep(s, id, r);
            LetterOk(t, PlacesAfterRead(s, pl, id, r), t.mail[|s.mail|])
  {
    var p := s.slaves[id];
    assert p.slave.reading[r.read] in p.slave.reading + p.slave.writing;
  }

  lemma ReadKeepsMail(s: System, pl: Places, id: ActorId, r: Slave.Event)
    requires Gateway.Enabled(s, SlaveRead(id, r))
    requires PlacesOk(s, pl) && AcceptedOk(s) && WireOk(s) && SlaveOk(s, pl, id) && MailOk(s, pl)
    ensures MailOk(SlaveStep(s, id, r), PlacesAfterRead(s, pl, id, r))
  {
    var t, pl' := SlaveStep(s, id, r), PlacesAfterRead(s, pl, id, r);
    var p := s.slaves[id];
    assert p.slave.reading[r.read] in p.slave.reading + p.slave.writing;
    ReadUndisturbed(s, pl, id, r, InMail);
    forall i | 0 <= i < |t.mail| ensures LetterOk(t, pl', t.mail[i]) {
      if i < |s.mail| {
        assert LetterOk(s, pl, s.mail[i]) && t.mail[i] == s.mail[i];
        SaneKept(s, pl, t, pl', InMail, s.mail[i].msg);
      } else {
        AcceptedLetter(s, pl, id, r);
      }
    }
    forall i, j | 0 <= i < j < |t.mail| ensures Differ(t.mail[i].msg, t.mail[j].msg) {
      assert LetterOk(s, pl, s.mail[i]) && t.mail[i] == s.mail[i];
    }
  }

  /** The reads of a slave after one has completed, with or without a next one. */
  predicate ReadsNext(p: Peer, p': Peer, r: Slave.Event)
    requires r.ReadDone? && r.read < |p.slave.reading|
  {
    var rest := Slave.Without(p.slave.reading, r.read);
    && p'.incarnation == p.incarnation && p'.slave.writing == p.slave.writing
    && (p'.slave.reading == rest || p'.slave.reading == rest + [r.nextBuffer])
  }

  lemma StepReadsNext(s: System, id: ActorId, r: Slave.Event)
    requires Gateway.Enabled(s, SlaveRead(id, r))
    ensures ReadsNext(s.slaves[id], SlaveStep(s, id, r).slaves[id], r)
  {
  }

  lemma ReadKeepsBuffers(s: System, pl: Places, id: ActorId, r: Slave.Event, p': Peer)
    requires Gateway.Enabled(s, SlaveRead(id, r)) && PlacesOk(s, pl) && BuffersOk(pl, s.slaves[id])
    requires ReadsNext(s.slaves[id], p', r)
    ensures BuffersOk(PlacesAfterRead(s, pl, id, r), p')
  {
    var p := s.slaves[id].slave;
    ReplaceStaysDistinct(p.reading, p.writing, r.read, r.nextBuffer);
  }

  lemma ReadKeepsRecord(s: System, pl: Places, id: ActorId, r: Slave.Event)
    requires Gateway.Enabled(s, SlaveRead(id, r)) && s.slaves[id].slave.id == id
    requires RecordOk(s, s.slaves[id]) && WrittenOk(s, pl)
    ensures var t := SlaveStep(s, id, r); RecordOk(t, t.slaves[id])
  {
    if Slave.Accepts(r) {
      forall k | 0 <= k < |s.written| ensures s.written[k].consumed.tag != r.tag {
        assert WrittenOneOk(s, pl, s.written[k]);
      }
    }
  }

  lemma ReadKeepsOwn(s: System, pl: Places, id: ActorId, r: Slave.Event)
    requires Gateway.Enabled(s, SlaveRead(id, r))
    requires PlacesOk(s, pl) && SlaveOk(s, pl, id) && WrittenOk(s, pl)
    ensures SlaveOk(SlaveStep(s, id, r), PlacesAfterRead(s, pl, id, r), id)
  {
    StepReadsNext(s, id, r);
    ReadKeepsBuffers(s, pl, id, r, SlaveStep(s, id, r).slaves[id]);
    ReadKeepsRecord(s, pl, id, r);
  }

  /** The buffer of a completed read goes, and perhaps a new one comes. */
  lemma ReplaceStaysDistinct(a: seq<nat>, b: seq<nat>, i: nat, x: nat)
    requires Distinct(a + b) && i < |a| && x !in a + b
    ensures var rest := Slave.Without(a, i);
            && Distinct(rest + b) && Distinct(rest + [x] + b)
            && (forall y :: y in rest + b ==> y in a + b && y != a[i])
            && (forall y :: y in rest + [x] + b ==> y == x || (y in a + b && y != a[i]))
  {
    var c, rest := a + b, Slave.Without(a, i);
    var d := rest + b;
    forall k | 0 <= k < |d| ensures d[k] == c[if k < i then k else k + 1] {
    }
    assert c[i] == a[i];
    forall y | y in d ensures y in c && y != a[i] {
      var k :| 0 <= k < |d| && d[k] == y;
      assert c[if k < i then k else k + 1] == y;
    }
    InsertStaysDistinct(rest, b, x);
  }

  lemma InsertStaysDistinct(a: seq<nat>, b: seq<nat>, x: nat)
    requires Distinct(a + b) && x !in a + b
    ensures Distinct(a + [x] + b)
    ensures forall y :: y in a + [x] + b ==> y == x || y in a + b
  {
    var c, d := a + b, a + [x] + b;
    forall k | 0 <= k < |d| && k != |a| ensures d[k] == c[if k < |a| then k else k - 1] && d[k] in c {
    }
  }

  lemma ReadKeepsInv(s: System, pl: Places, id: ActorId, r: Slave.Event)
    requires GatewayInvariant.Inv(s, pl) && Gateway.Enabled(s, SlaveRead(id, r))
    ensures GatewayInvariant.Inv(SlaveStep(s, id, r), PlacesAfterRead(s, pl, id, r))
  {
    hide Conserved, MasterOk, Slave.Step;
    var t, pl' := SlaveStep(s, id, r), PlacesAfterRead(s, pl, id, r);
    assert SlaveOk(s, pl, id);
    ReadKeepsMail(s, pl, id, r);
    ReadUndisturbed(s, pl, id, r, Done);
    WrittenKept(s, pl, t, pl');
    forall other | other in t.masters ensures MasterOk(t, pl', other) {
      ReadUndisturbed(s, pl, id, r, AtMaster(other));
      MasterKept(s, pl, t, pl', other);
    }
    ReadKeepsSlaves(s, pl, id, r);
    ReadKeepsHistory(s, pl, id, r);
  }

  lemma ReadKeepsSlaves(s: System, pl: Places, id: ActorId, r: Slave.Event)
    requires Gateway.Enabled(s, SlaveRead(id, r)) && PlacesOk(s, pl) && SlavesOk(s, pl) && WrittenOk(s, pl)
    ensures SlavesOk(SlaveStep(s, id, r), PlacesAfterRead(s, pl, id, r))
  {
    hide SlaveOk, PlacesAfterRead, PlacesOk;
    var t, pl' := SlaveStep(s, id, r), PlacesAfterRead(s, pl, id, r);
    forall other | other in t.slaves
      ensures SlaveOk(t, pl', other) && t.slaves[other].incarnation == s.slaves[other].incarnation
    {
      ReadKeepsSlave(s, pl, id, r, other);
    }
  }

  lemma ReadKeepsSlave(s: System, pl: Places, id: ActorId, r: Slave.Event, other: ActorId)
    requires Gateway.Enabled(s, SlaveRead(id, r)) && PlacesOk(s, pl) && SlavesOk(s, pl) && WrittenOk(s, pl)
    requires other in s.slaves
    ensures SlaveOk(SlaveStep(s, id, r), PlacesAfterRead(s, pl, id, r), other)
    ensures SlaveStep(s, id, r).slaves[other].incarnation == s.slaves[other].incarnation
  {
    if other == id {
      ReadKeepsOwn(s, pl, id, r);
    } else {
      ReadUndisturbed(s, pl, id, r, AtSlave(s.slaves[other].incarnation));
      SlaveKept(s, pl, SlaveStep(s, id, r), PlacesAfterRead(s, pl, id, r), other);
    }
  }

  lemma ReadKeepsHistory(s: System, pl: Places, id: ActorId, r: Slave.Event)
    requires Gateway.Enabled(s, SlaveRead(id, r))
    requires PlacesOk(s, pl) && AcceptedOk(s) && WireOk(s) && SlaveOk(s, pl, id)
    ensures var t := SlaveStep(s, id, r);
            AcceptedOk(t) && WireOk(t) && PlacesOk(t, PlacesAfterRead(s, pl, id, r))
  {
    var p := s.slaves[id];
    assert p.slave.reading[r.read] in p.slave.reading + p.slave.writing;
  }

  // ---------- all steps, all runs ----------

  lemma FreshHoldsNothing(m: Master)
    requires Fresh(m)
    ensures Masters.Inv(m) && Held(PipeOf(m)) == [] && PipeOf(m).queue == [] && IoOf(m) == NO_IO
  {
  }

  lemma InitMastersOk(s: System, pl: Places)
    requires forall id :: id in s.masters ==> Fresh(s.masters[id])
    ensures MastersOk(s, pl)
  {
    forall id | id in s.masters ensures MasterOk(s, pl, id) {
      FreshHoldsNothing(s.masters[id]);
    }
  }

  lemma InitHasInv(s: System) returns (pl: Places)
    requires Init(s)
    ensures GatewayInvariant.Inv(s, pl)
  {
    pl := Places(map[], map[]);
    InitMastersOk(s, pl);
    assert AcceptedOk(s) && PlacesOk(s, pl);
    assert MailOk(s, pl) && WireOk(s);
    assert WrittenOk(s, pl) && SlavesOk(s, pl);
  }

  lemma StepKeepsInv(s: System, pl: Places, e: Gateway.Event) returns (pl': Places)
    requires GatewayInvariant.Inv(s, pl) && Gateway.Enabled(s, e)
    ensures GatewayInvariant.Inv(Gateway.Step(s, e), pl')
  {
    hide EffectOf, Masters.Step, Masters.Inv, GatewayInvariant.Inv;
    match e
    case Join(_, _, _) => pl' := JoinKeepsInv(s, pl, e);
    case Leave(_) =>
      pl' := pl;
      LeaveKeepsInv(s, pl, e);
    case SlaveRead(id, r) =>
      pl' := PlacesAfterRead(s, pl, id, r);
      ReadKeepsInv(s, pl, id, r);
    case SlaveWrote(_, _) =>
      pl' := pl;
      WroteKeepsInv(s, pl, e);
    case Deliver(i, clock) =>
      if s.mail[i].to in s.masters {
        pl' := DeliverToMasterKeepsInv(s, pl, i, clock);
      } else if s.mail[i].to in s.slaves {
        pl' := DeliverToSlaveKeepsInv(s, pl, i, clock);
      } else {
        pl' := Taken(pl, s.mail[i].msg, Done, Done);
        TakeKeepsInv(s, pl, i, Done, Done);
      }
    case MasterDone(id, done) =>
      pl' := PlacesAfter(pl, id, EffectOf(s.masters[id], done));
      DoneIsEnabled(s, pl, id, done);
      MasterStepKeepsInv(s, pl, id, done);
  }

  lemma DoneIsEnabled(s: System, pl: Places, id: ActorId, done: Masters.Event)
    requires GatewayInvariant.Inv(s, pl) && Gateway.Enabled(s, MasterDone(id, done))
    ensures MasterEnabled(s, pl, id, done)
  {
    hide Masters.Inv;
    assert MasterOk(s, pl, id);
    assert Held(PipeOf(s.masters[id])) + [] == Held(PipeOf(s.masters[id]));
  }

  lemma {:induction false} RunInv(states: seq<System>, events: seq<Gateway.Event>, n: nat) returns (pl: Places)
    requires IsRun(states, events) && n < |states|
    ensures GatewayInvariant.Inv(states[n], pl)
  {
    hide Gateway.Step, GatewayInvariant.Inv;
    if n == 0 {
      pl := InitHasInv(states[0]);
    } else {
      pl := RunInv(states, events, n - 1);
      assert Follows(states, events, n - 1);
      pl := StepKeepsInv(states[n - 1], pl, events[n - 1]);
    }
  }
}
