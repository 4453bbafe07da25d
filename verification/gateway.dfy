/** The whole gateway as one step machine: slaves that come and go, masters, the exchange between them, and the buffers they
    share. Sending through the exchange puts a message into the mail, which is delivered in any order and at any time. */
module Gateway {
  import opened Messages
  import opened Pipeline
  import opened PendingIo
  import opened Masters
  import Slave

  datatype Envelope = Envelope(to: ActorId, msg: Msg)

  /** A slave, and its serial number among all slaves ever added: actor ids may be used again. */
  datatype Peer = Peer(slave: Slave.State, incarnation: nat)

  /** History: an accepted request, the frame it came in, and the slave that accepted it. */
  datatype Accepted = Accepted(info: Info, kind: Slave.Kind, incarnation: nat, frame: Frame)

  /** History: the frame a master began to write for the request `tag`. */
  datatype OnWire = OnWire(master: ActorId, tag: nat, id: TransactionId, frame: Frame)

  /** History: the frame a slave began to write, the info of the response, and the record it used up. */
  datatype Written = Written(info: Info, consumed: Info, kind: Slave.Kind, incarnation: nat, frame: Frame)

  datatype Origin = Origin(master: ActorId, answers: int)

  datatype System = System(
    slaves: map<ActorId, Peer>,
    masters: map<ActorId, Master>,
    route: seq<ActorId>,
    mail: seq<Envelope>,
    heap: map<nat, Frame>,          // the contents of every buffer ever allocated
    births: nat,
    accepted: seq<Accepted>,        // accepted[t] is the request with tag t
    wire: seq<OnWire>,
    replies: map<nat, Payload>,     // what a master read for the request `tag` and made into a response
    origins: map<nat, Origin>,      // by which master, and which of its dispatches that frame really answered
    written: seq<Written>)

  datatype Event =
    | Join(id: ActorId, kind: Slave.Kind, buffer: nat)
    | Leave(id: ActorId)
    | SlaveRead(id: ActorId, read: Slave.Event)
    | SlaveWrote(id: ActorId, write: nat)
    | Deliver(index: nat, clock: Clock)
    | MasterDone(id: ActorId, done: Masters.Event)

  const BLANK := Frame(TCP, 0, [], 0)

  /** Converting a buffer in place: the frame type changes, and a TCP frame gets the given identifier. */
  function Framed(f: Frame, frameType: FrameType, id: TransactionId): (g: Frame)
    ensures PayloadOf(g) == PayloadOf(f)
  {
    f.(frameType := frameType, transactionId := if frameType.TCP? then id else f.transactionId)
  }

  predicate Init(s: System) {
    && s.slaves == map[] && s.mail == [] && s.heap == map[] && s.births == 0 && s.accepted == [] && s.wire == []
    && s.replies == map[] && s.origins == map[] && s.written == []
    && forall id :: id in s.masters ==> Fresh(s.masters[id])
  }

  predicate Enabled(s: System, e: Event) {
    match e
    case Join(id, kind, buffer) =>
      // the exchange never gives out an id that is in use; the ids in the route table are those of masters, or none
      id !in s.slaves && id !in s.masters && id !in s.route && buffer !in s.heap && kind != Slave.Serial(TCP)
    case Leave(id) => id in s.slaves
    case SlaveRead(id, r) =>
      && id in s.slaves && r.ReadDone? && Slave.Enabled(s.slaves[id].slave, r)
      && r.tag == |s.accepted| && r.nextBuffer !in s.heap
      && r.request.frame.frameType == Slave.TypeOf(s.slaves[id].slave.kind)
      && (Slave.Accepts(r) ==> r.request.frame.unitId < |s.route|)
    case SlaveWrote(id, write) => id in s.slaves && write < |s.slaves[id].slave.writing|
    case Deliver(i, _) => i < |s.mail|
    case MasterDone(id, done) =>
      && id in s.masters && Masters.Enabled(s.masters[id], done) && Incoming(done) == []
      && (Allocated(done).Some? ==> Allocated(done).value !in s.heap)
  }

  /** What a handler of a master does, as far as the rest of the gateway can tell: the master afterwards, the buffer that
      was read with its new contents, the buffer allocated for the next read, the dispatch and the response made. */
  datatype Effect = Effect(
    master: Master,
    read: Option<(nat, Frame)>,
    newBuffer: Option<nat>,
    started: Option<Current>,
    response: Option<Msg>,
    answers: int)

  function EffectOf(m: Master, e: Masters.Event): Effect
    requires Masters.Enabled(m, e)
  {
    var m' := Masters.Step(m, e);
    Effect(m',
            match Completed(m, e)
            case Some((b, r)) =>
              Some((b, Frame(Masters.TypeOf(m), r.payload.unitId, r.payload.pdu, r.transactionId)))
            case None => None,
            Allocated(e),
            Started(PipeOf(m), PipeOf(m')),
            Response(PipeOf(m), PipeOf(m')),
            match Completed(m, e) case Some((_, r)) => r.answers case None => 0)
  }

  function Put(heap: map<nat, Frame>, entry: Option<(nat, Frame)>): map<nat, Frame> {
    match entry
    case Some((b, f)) => heap[b := f]
    case None => heap
  }

  /** A read completes into its buffer; a new buffer is allocated for the next read; a dispatch converts its buffer. */
  function HeapAfter(heap: map<nat, Frame>, o: Effect): map<nat, Frame> {
    var read := Put(heap, o.read);
    var next := if o.newBuffer.Some? then read[o.newBuffer.value := BLANK] else read;
    if o.started.Some? && o.started.value.msg.buffer in next then
      var b := o.started.value.msg.buffer;
      next[b := Framed(next[b], Masters.TypeOf(o.master), o.started.value.id)]
    else next
  }

  /** One handler of a master: its new state, its buffers, the response it sends and the frame it begins to write. */
  function MasterEffect(s: System, id: ActorId, o: Effect): System {
    var heap := HeapAfter(s.heap, o);
    s.(masters := s.masters[id := o.master],
       heap := heap,
       mail := s.mail + (if o.response.Some? then [Envelope(o.response.value.info.sourceId, o.response.value)] else []),
       replies := if o.response.Some? && o.read.Some?
                  then s.replies[o.response.value.info.tag := PayloadOf(o.read.value.1)] else s.replies,
       origins := if o.response.Some?
                  then s.origins[o.response.value.info.tag := Origin(id, o.answers)] else s.origins,
       wire := s.wire + (if o.started.Some? && o.started.value.msg.buffer in heap then
                           [OnWire(id, o.started.value.msg.info.tag, o.started.value.id,
                                   heap[o.started.value.msg.buffer])]
                         else []))
  }

  function MasterStep(s: System, id: ActorId, e: Masters.Event): System
    requires id in s.masters && Masters.Enabled(s.masters[id], e)
  {
    MasterEffect(s, id, EffectOf(s.masters[id], e))
  }

  /** A response arrives at a slave: if it matches, its buffer is converted in place and written. */
  function SlaveReceive(s: System, id: ActorId, msg: Msg): System
    requires id in s.slaves
  {
    var p := s.slaves[id];
    var t := s.(slaves := s.slaves[id := p.(slave := Slave.Step(p.slave, Slave.Receive(msg.info, Some(msg.buffer))))]);
    if Slave.Matches(p.slave, msg.info) && msg.buffer in s.heap then
      var f := Framed(s.heap[msg.buffer], Slave.TypeOf(p.slave.kind), msg.info.transactionId);
      t.(heap := s.heap[msg.buffer := f],
         written := s.written + [Written(msg.info, p.slave.record.value, p.slave.kind, p.incarnation, f)])
    else t
  }

  /** A read of a slave completes: a valid request is routed by its unit id. */
  function SlaveStep(s: System, id: ActorId, r: Slave.Event): System
    requires Enabled(s, SlaveRead(id, r))
  {
    var p := s.slaves[id];
    var buffer := p.slave.reading[r.read];
    var t := s.(slaves := s.slaves[id := p.(slave := Slave.Step(p.slave, r))],
                heap := s.heap[buffer := r.request.frame][r.nextBuffer := BLANK]);
    if Slave.Accepts(r) then
      var info := Slave.RequestInfo(p.slave, r.request, r.now, r.tag);
      t.(accepted := s.accepted + [Accepted(info, p.slave.kind, p.incarnation, r.request.frame)],
         mail := s.mail + [Envelope(s.route[r.request.frame.unitId], Msg(info, buffer))])
    else t
  }

  function Step(s: System, e: Event): System
    requires Enabled(s, e)
  {
    match e
    case Join(id, kind, buffer) =>
      s.(slaves := s.slaves[id := Peer(Slave.Step(Slave.Init(id, kind), Slave.Start(buffer)), s.births)],
         births := s.births + 1, heap := s.heap[buffer := BLANK])
    case Leave(id) => s.(slaves := s.slaves - {id})
    case SlaveRead(id, r) => SlaveStep(s, id, r)
    case SlaveWrote(id, write) =>
      var p := s.slaves[id];
      s.(slaves := s.slaves[id := p.(slave := Slave.Step(p.slave, Slave.WriteDone(write)))])
    case Deliver(i, clock) =>
      var env, t := s.mail[i], s.(mail := Remove(s.mail, i));
      if env.to in s.masters then MasterStep(t, env.to, Receive(s.masters[env.to], env.msg, clock))
      else if env.to in s.slaves then SlaveReceive(t, env.to, env.msg)
      else t
    case MasterDone(id, done) => MasterStep(s, id, done)
  }

  ghost predicate IsRun(states: seq<System>, events: seq<Event>) {
    && |states| == |events| + 1
    && Init(states[0])
    && (forall k :: 0 <= k < |events| ==> Follows(states, events, k))
  }

  /** The k-th event of a run is possible in the state before it and leads to the state after it. */
  ghost predicate Follows(states: seq<System>, events: seq<Event>, k: nat)
    requires |states| == |events| + 1 && k < |events|
  {
    Enabled(states[k], events[k]) && states[k + 1] == Step(states[k], events[k])
  }
}
