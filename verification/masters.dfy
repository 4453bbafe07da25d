/** Both masters behind one interface, and what any of their steps does to the messages they hold. */
module Masters {
  import opened LimitQueues
  import opened Messages
  import opened Pipeline
  import opened PendingIo
  import RtuMaster
  import TcpClient

  datatype Master = Rtu(rtu: RtuMaster.State, frameType: FrameType) | Tcp(tcp: TcpClient.State)

  datatype Event = RtuEvent(rtu: RtuMaster.Event) | TcpEvent(tcp: TcpClient.Event)

  function PipeOf(m: Master): Pipe {
    if m.Rtu? then m.rtu.pipe else m.tcp.pipe
  }

  function IoOf(m: Master): Io {
    if m.Rtu? then m.rtu.io else m.tcp.io
  }

  function TypeOf(m: Master): FrameType {
    if m.Rtu? then m.frameType else TCP
  }

  predicate Enabled(m: Master, e: Event) {
    || (m.Rtu? && e.RtuEvent? && RtuMaster.Enabled(m.rtu, e.rtu))
    || (m.Tcp? && e.TcpEvent? && TcpClient.Enabled(m.tcp, e.tcp))
  }

  function Step(m: Master, e: Event): Master
    requires Enabled(m, e)
  {
    if m.Rtu? then m.(rtu := RtuMaster.Step(m.rtu, e.rtu)) else m.(tcp := TcpClient.Step(m.tcp, e.tcp))
  }

  predicate Fresh(m: Master) {
    if m.Rtu? then m.rtu == RtuMaster.Init(m.rtu.timeout) && !m.frameType.TCP?
    else m.tcp == TcpClient.Init(m.tcp.timeout)
  }

  ghost predicate Inv(m: Master) {
    if m.Rtu? then RtuMaster.Inv(m.rtu) else TcpClient.Inv(m.tcp)
  }

  /** The slot is occupied and nothing is pending that could ever free it. */
  predicate Trapped(m: Master) {
    PipeOf(m).current.Some? && IoOf(m).writing == [] && IoOf(m).reading == []
  }

  /** A read handler that returns without freeing the slot: the exchange is dead, or the frame has an invalid size. */
  predicate LeavesSlot(e: Event) {
    match e
    case RtuEvent(r) => RtuMaster.LeavesSlot(r)
    case TcpEvent(t) => TcpClient.LeavesSlot(t)
  }

  lemma StepKeepsInv(m: Master, e: Event)
    requires Inv(m) && Enabled(m, e)
    ensures Inv(Step(m, e))
    ensures Trapped(Step(m, e)) <==> Trapped(m) || LeavesSlot(e)
  {
    if m.Rtu? {
      RtuMaster.StepKeepsInv(m.rtu, e.rtu);
    } else {
      TcpClient.StepKeepsInv(m.tcp, e.tcp);
    }
  }

  function Receive(m: Master, msg: Msg, clock: Clock): Event {
    if m.Rtu? then RtuEvent(RtuMaster.Receive(msg, clock)) else TcpEvent(TcpClient.Receive(msg, clock))
  }

  /** The message an event brings in, if any. */
  function Incoming(e: Event): seq<Msg> {
    match e
    case RtuEvent(Receive(m, _)) => [m]
    case TcpEvent(Receive(m, _)) => [m]
    case _ => []
  }

  /** The read an event completes: its buffer, and the frame that was put there. */
  function Completed(m: Master, e: Event): Option<(nat, Reply)>
    requires Enabled(m, e)
  {
    match e
    case RtuEvent(ReadDone(i, _, _, reply, _)) => Some((m.rtu.io.reading[i].buffer, reply))
    case TcpEvent(ReceiveDone(i, _, _, reply, _)) => Some((m.tcp.io.reading[i].buffer, reply))
    case _ => None
  }

  /** The buffer that the handler allocates for the next read, if it starts one. */
  function Allocated(e: Event): Option<nat> {
    match e
    case RtuEvent(WriteDone(_, Ok, b)) => Some(b)
    case TcpEvent(SendDone(_, Ok, b)) => Some(b)
    case _ => None
  }

  /** The messages a master holds: the request in the slot, then the queue. */
  function Held(p: Pipe): seq<Msg> {
    (if p.current.Some? then [p.current.value.msg] else []) + p.queue
  }

  predicate Differ(x: Msg, y: Msg) {
    x.info.tag != y.info.tag && x.buffer != y.buffer
  }

  ghost predicate Apart(s: seq<Msg>) {
    forall i, j :: 0 <= i < j < |s| ==> Differ(s[i], s[j])
  }

  /** Whatever p holds after a step was held before or came in, and stays apart if it was. */
  ghost predicate Keeps(before: seq<Msg>, after: seq<Msg>) {
    && (forall x :: x in after ==> x in before)
    && (Apart(before) ==> Apart(after))
  }

  /** The response a step made, and the dispatch it made. */
  function Response(p: Pipe, q: Pipe): Option<Msg> {
    if |q.log.delivered| > |p.log.delivered| then Some(q.log.delivered[|q.log.delivered| - 1].msg) else None
  }

  function Started(p: Pipe, q: Pipe): Option<Current> {
    if |q.log.dispatched| > |p.log.dispatched| then Some(q.log.dispatched[|q.log.dispatched| - 1]) else None
  }

  /** The slot's message leaves a master either answered, with the buffer just read, or silently. */
  ghost predicate Answers(p: Pipe, q: Pipe, completed: Option<(nat, Reply)>) {
    Response(p, q).Some? ==>
      && completed.Some? && p.current.Some?
      && Response(p, q) == Some(Msg(p.current.value.msg.info, completed.value.0))
      && (Apart(Held(p)) ==> forall x :: x in Held(q) ==> x.info.tag != p.current.value.msg.info.tag)
  }

  /** A dispatch fills the slot and starts the write of its buffer. */
  ghost predicate Starts(p: Pipe, q: Pipe, io: Io, io': Io) {
    && (Started(p, q).Some? ==> q.current == Started(p, q) && q.current.value.msg in Held(q) && io'.writing != [])
    && (Started(p, q).None? ==> io'.writing != [] ==> q.current == p.current && io.writing != [])
  }

  /** The queue only takes in what comes in, and a dispatch takes its message from there, never from the slot again. */
  ghost predicate Queues(p: Pipe, q: Pipe, incoming: seq<Msg>) {
    && (forall x :: x in q.queue ==> x in p.queue + incoming)
    && (Started(p, q).Some? ==> Started(p, q).value.msg in p.queue + incoming)
  }

  ghost predicate Reads(io: Io, io': Io, completed: Option<(nat, Reply)>, newBuffer: Option<nat>) {
    forall i :: 0 <= i < |io'.reading| ==>
      || (newBuffer == Some(io'.reading[i].buffer))
      || (completed.None? && exists j :: 0 <= j < |io.reading| && io.reading[j].buffer == io'.reading[i].buffer)
  }

  ghost predicate Flow(m: Master, e: Event)
    requires Enabled(m, e)
  {
    var p, q, io, io' := PipeOf(m), PipeOf(Step(m, e)), IoOf(m), IoOf(Step(m, e));
    && Keeps(Held(p) + Incoming(e), Held(q))
    && Answers(p, q, Completed(m, e))
    && Queues(p, q, Incoming(e))
    && Starts(p, q, io, io')
    && Reads(io, io', Completed(m, e), Allocated(e))
  }

  lemma SuffixKeeps(s: seq<Msg>, n: nat)
    requires n <= |s|
    ensures Keeps(s, s[n..])
    ensures Apart(s) && n == 1 ==> forall x :: x in s[1..] ==> x.info.tag != s[0].info.tag
  {
  }

  lemma AdvanceQueues(p: Pipe, timeout: int, clock: Clock)
    ensures Queues(p, Advance(p, timeout, clock), [])
  {
    AdvanceShape(p, timeout, clock);
    assert p.queue + [] == p.queue;
  }

  lemma AdvanceKeeps(p: Pipe, timeout: int, clock: Clock)
    ensures var q := Advance(p, timeout, clock);
            && Keeps(Held(p), Held(q)) && Queues(p, q, [])
            && Response(p, q).None?
            && (Started(p, q).Some? <==> p.current.None? && q.current.Some?)
            && (Started(p, q).Some? ==> q.current == Started(p, q) && q.current.value.msg in Held(q))
            && (Started(p, q).None? ==> q.current == p.current)
  {
    AdvanceShape(p, timeout, clock);
    AdvanceQueues(p, timeout, clock);
    AdvanceHeld(p, timeout, clock);
  }

  lemma SuffixCons(s: seq<Msg>, n: nat)
    requires n < |s|
    ensures [s[n]] + s[n + 1..] == s[n..]
  {
  }

  lemma AdvanceHeld(p: Pipe, timeout: int, clock: Clock)
    ensures Keeps(Held(p), Held(Advance(p, timeout, clock)))
  {
    if p.queue != [] && p.current.None? {
      AdvanceLeavesSuffix(p, timeout, clock);
      SuffixKeeps(p.queue, ExpiredCount(p.queue, timeout, clock, 0));
    }
  }

  lemma AdvanceLeavesSuffix(p: Pipe, timeout: int, clock: Clock)
    requires p.queue != [] && p.current.None?
    ensures Held(p) == p.queue
    ensures Held(Advance(p, timeout, clock)) == p.queue[ExpiredCount(p.queue, timeout, clock, 0)..]
  {
    AdvanceShape(p, timeout, clock);
    var n := ExpiredCount(p.queue, timeout, clock, 0);
    if n < |p.queue| {
      SuffixCons(p.queue, n);
    }
  }

  lemma EnqueueKeeps(p: Pipe, msg: Msg)
    ensures Keeps(Held(p) + [msg], Held(Enqueue(p, msg))) && Queues(p, Enqueue(p, msg), [msg])
  {
    var before, after := Held(p) + [msg], Held(Enqueue(p, msg));
    if |p.queue| > SIZE_MAX {
      assert Enqueue(p, msg).queue == p.queue[1..] + [msg];
      assert after == (if p.current.Some? then before[..1] + before[2..] else before[1..]);
    } else {
      assert after == before;
    }
  }

  lemma KeepsTransitive(a: seq<Msg>, b: seq<Msg>, c: seq<Msg>)
    requires Keeps(a, b) && Keeps(b, c)
    ensures Keeps(a, c)
  {
  }

  lemma RespondKeeps(p: Pipe, buffer: nat, reply: Reply, accepted: bool)
    ensures var q := Respond(p, buffer, reply, accepted);
            && Keeps(Held(p), Held(q)) && Started(p, q).None? && q.queue == p.queue
            && Answers(p, q, Some((buffer, reply)))
            && (q.current.Some? ==> q == p)
  {
    var q := Respond(p, buffer, reply, accepted);
    if q.current.None? && p.current.Some? {
      assert Held(q) == Held(p)[1..];
      assert Held(p)[0] == p.current.value.msg;
      SuffixKeeps(Held(p), 1);
    }
  }

  /** A reply may be followed, in the same handler, by the next dispatch. */
  lemma RespondAndAdvanceKeep(p: Pipe, buffer: nat, reply: Reply, accepted: bool, timeout: int, clock: Clock)
    ensures var r := Respond(p, buffer, reply, accepted);
            var q := Advance(r, timeout, clock);
            && Keeps(Held(p), Held(q)) && Queues(p, q, []) && r.queue == p.queue
            && Answers(p, q, Some((buffer, reply))) && Answers(p, r, Some((buffer, reply)))
            && (Started(p, q).Some? <==> r.current.None? && q.current.Some?)
            && (Started(p, q).Some? ==> q.current == Started(p, q) && q.current.value.msg in Held(q))
            && Started(p, r).None?
            && (r.current.Some? ==> r == p) && Keeps(Held(p), Held(r))
  {
    var r := Respond(p, buffer, reply, accepted);
    var q := Advance(r, timeout, clock);
    RespondKeeps(p, buffer, reply, accepted);
    AdvanceKeeps(r, timeout, clock);
    AdvanceShape(r, timeout, clock);
    KeepsTransitive(Held(p), Held(r), Held(q));
  }

  lemma FreeKeeps(p: Pipe)
    ensures Keeps(Held(p), Held(Free(p)))
  {
    if p.current.Some? {
      assert Held(Free(p)) == Held(p)[1..];
      SuffixKeeps(Held(p), 1);
    }
  }

  /** All that the flow of messages needs of the invariant. */
  predicate OneAtATime(m: Master) {
    Count(IoOf(m)) <= 1 && (Count(IoOf(m)) == 1 ==> PipeOf(m).current.Some?)
  }

  lemma StepFlows(m: Master, e: Event)
    requires Inv(m) && Enabled(m, e)
    ensures Flow(m, e)
  {
    OneAtATimeFlows(m, e);
  }

  lemma OneAtATimeFlows(m: Master, e: Event)
    requires OneAtATime(m) && Enabled(m, e)
    ensures Flow(m, e)
  {
    match e
    case RtuEvent(Receive(_, _)) => RtuReceiveFlows(m, e);
    case RtuEvent(WriteDone(_, _, _)) => RtuWriteFlows(m, e);
    case RtuEvent(WaitDone(_, _, _)) => WaitFlows(m, e);
    case RtuEvent(ReadDone(_, _, _, _, _)) => RtuReadDoneFlows(m, e);
    case TcpEvent(Receive(_, _)) => TcpReceiveFlows(m, e);
    case TcpEvent(ConnectDone(_, _)) => TcpConnectDoneFlows(m, e);
    case TcpEvent(SendDone(_, _, _)) => TcpSendFlows(m, e);
    case TcpEvent(WaitDone(_, _, _)) => WaitFlows(m, e);
    case TcpEvent(ReceiveDone(_, _, _, _, _)) => TcpReceiveDoneFlows(m, e);
  }

  /** A step that at most frees the slot, and starts no write. */
  lemma QuietFlow(p: Pipe, q: Pipe, io: Io, io': Io)
    requires q == p || q == Free(p)
    requires io'.writing != [] ==> q == p && io.writing != []
    ensures Keeps(Held(p) + [], Held(q)) && Answers(p, q, None) && Queues(p, q, []) && Starts(p, q, io, io')
  {
    assert Held(p) + [] == Held(p);
    FreeKeeps(p);
  }

  lemma RtuWriteFlows(m: Master, e: Event)
    requires OneAtATime(m) && Enabled(m, e) && e.RtuEvent? && e.rtu.WriteDone?
    ensures Flow(m, e)
  {
    QuietFlow(PipeOf(m), PipeOf(Step(m, e)), IoOf(m), IoOf(Step(m, e)));
  }

  lemma TcpSendFlows(m: Master, e: Event)
    requires OneAtATime(m) && Enabled(m, e) && e.TcpEvent? && e.tcp.SendDone?
    ensures Flow(m, e)
  {
    QuietFlow(PipeOf(m), PipeOf(Step(m, e)), IoOf(m), IoOf(Step(m, e)));
  }

  /** A timer handler leaves the reads where they are. */
  lemma WaitKeepsReads(io: Io, g: nat, ec: Ec, cancelled: bool)
    ensures Reads(io, EndWait(io, g, ec, cancelled), None, None)
    ensures EndWait(io, g, ec, cancelled).writing != [] ==> io.writing != []
  {
  }

  lemma WaitFlows(m: Master, e: Event)
    requires OneAtATime(m) && Enabled(m, e)
    requires (e.RtuEvent? && e.rtu.WaitDone?) || (e.TcpEvent? && e.tcp.WaitDone?)
    ensures Flow(m, e)
  {
    QuietFlow(PipeOf(m), PipeOf(Step(m, e)), IoOf(m), IoOf(Step(m, e)));
    if m.Rtu? {
      WaitKeepsReads(m.rtu.io, e.rtu.wait, e.rtu.ec, e.rtu.cancelled);
    } else {
      WaitKeepsReads(m.tcp.io, e.tcp.wait, e.tcp.ec, e.tcp.cancelled);
    }
  }

  /** QueueProcessUnsafe of the TCP client either leaves messages and operations alone or advances the pipeline. */
  lemma TcpQueueProcess(s: TcpClient.State, clock: Clock)
    ensures var t, q := TcpClient.QueueProcess(s, clock), Advance(s.pipe, s.timeout, clock);
            || (t.pipe == s.pipe && t.io == s.io)
            || (t.pipe == q && t.io == if s.pipe.current.None? && q.current.Some? then
                                         StartWrite(s.io, q.current.value.msg.buffer)
                                       else s.io)
  {
  }

  lemma TcpConnectDoneFlows(m: Master, e: Event)
    requires OneAtATime(m) && Enabled(m, e) && e.TcpEvent? && e.tcp.ConnectDone?
    ensures Flow(m, e)
  {
    hide Held;
    var s := m.tcp;
    assert Held(s.pipe) + [] == Held(s.pipe);
    AdvanceKeeps(s.pipe, s.timeout, e.tcp.clock);
    TcpQueueProcess(s.(connects := s.connects - 1, link := TcpClient.Connected), e.tcp.clock);
  }

  /** A message is queued; the pipeline may then advance, which starts the write of what it dispatched. */
  lemma EnqueueFlows(p: Pipe, msg: Msg, io: Io)
    requires Count(io) <= 1 && (Count(io) == 1 ==> p.current.Some?)
    ensures var q := Enqueue(p, msg);
            && Keeps(Held(p) + [msg], Held(q)) && Queues(p, q, [msg]) && Answers(p, q, None) && Starts(p, q, io, io)
  {
    EnqueueKeeps(p, msg);
  }

  lemma EnqueueAndAdvanceFlow(p: Pipe, msg: Msg, timeout: int, clock: Clock, io: Io)
    requires Count(io) <= 1 && (Count(io) == 1 ==> p.current.Some?)
    ensures var q := Advance(Enqueue(p, msg), timeout, clock);
            var io' := if p.current.None? && q.current.Some? then StartWrite(io, q.current.value.msg.buffer) else io;
            && Keeps(Held(p) + [msg], Held(q)) && Queues(p, q, [msg])
            && Answers(p, q, None) && Starts(p, q, io, io')
  {
    var r := Enqueue(p, msg);
    EnqueueFlows(p, msg, io);
    AdvanceKeeps(r, timeout, clock);
    KeepsTransitive(Held(p) + [msg], Held(r), Held(Advance(r, timeout, clock)));
  }

  lemma RtuReceiveFlows(m: Master, e: Event)
    requires OneAtATime(m) && Enabled(m, e) && e.RtuEvent? && e.rtu.Receive?
    ensures Flow(m, e)
  {
    EnqueueAndAdvanceFlow(m.rtu.pipe, e.rtu.msg, m.rtu.timeout, e.rtu.clock, m.rtu.io);
  }

  lemma TcpReceiveFlows(m: Master, e: Event)
    requires OneAtATime(m) && Enabled(m, e) && e.TcpEvent? && e.tcp.Receive?
    ensures Flow(m, e)
  {
    EnqueueFlows(m.tcp.pipe, e.tcp.msg, m.tcp.io);
    EnqueueAndAdvanceFlow(m.tcp.pipe, e.tcp.msg, m.tcp.timeout, e.tcp.clock, m.tcp.io);
    TcpQueueProcess(m.tcp.(pipe := Enqueue(m.tcp.pipe, e.tcp.msg)), e.tcp.clock);
  }

  lemma RtuReadDoneFlows(m: Master, e: Event)
    requires OneAtATime(m) && Enabled(m, e) && e.RtuEvent? && e.rtu.ReadDone?
    ensures Flow(m, e)
  {
    hide Held;
    var s, r := m.rtu, e.rtu;
    assert Held(s.pipe) + [] == Held(s.pipe);
    FreeKeeps(s.pipe);
    RespondAndAdvanceKeep(s.pipe, s.io.reading[r.read].buffer, r.reply, r.reply.checkOk, s.timeout, r.clock);
  }

  lemma TcpReceiveDoneFlows(m: Master, e: Event)
    requires OneAtATime(m) && Enabled(m, e) && e.TcpEvent? && e.tcp.ReceiveDone?
    ensures Flow(m, e)
  {
    var s, r := m.tcp, e.tcp;
    assert Held(s.pipe) + [] == Held(s.pipe);
    if !r.exchangeAlive || !r.ec.Ok? {
      FreeKeeps(s.pipe);
    } else {
      TcpRepliedFlows(m, e);
    }
  }

  lemma TcpRepliedFlows(m: Master, e: Event)
    requires OneAtATime(m) && Enabled(m, e) && e.TcpEvent? && e.tcp.ReceiveDone? && e.tcp.exchangeAlive && e.tcp.ec.Ok?
    ensures Flow(m, e)
  {
    var s, r := m.tcp, e.tcp;
    assert Held(s.pipe) + [] == Held(s.pipe);
    var accepted := TcpClient.Accepts(s, r.reply);
    RespondAndAdvanceKeep(s.pipe, s.io.reading[r.read].buffer, r.reply, accepted, s.timeout, r.clock);
    TcpQueueProcess(
      s.(io := CancelTimer(EndRead(s.io, r.read)), link := TcpClient.Connected,
         pipe := Respond(s.pipe, s.io.reading[r.read].buffer, r.reply, accepted)), r.clock);
  }
}
