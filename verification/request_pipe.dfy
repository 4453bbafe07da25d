/** The fields that both masters have in common, and the parts of their handlers that work on them alone: the queue of shared
    messages, the slot for the request on the wire, and the identifier counter. Each method does what the function of module
    Pipeline with the same purpose does. */
module RequestPipes {
  import opened LimitQueues
  import opened Messages
  import opened Pipeline

  ghost function Views(queue: seq<ModbusMessage>): (views: seq<Msg>)
    reads queue
    ensures |views| == |queue| && forall i :: 0 <= i < |queue| ==> views[i] == queue[i].View()
  {
    seq(|queue|, i requires 0 <= i < |queue| reads queue => queue[i].View())
  }

  ghost predicate Show(queue: seq<ModbusMessage>, views: seq<Msg>)
    reads queue
  {
    |queue| == |views| && forall i :: 0 <= i < |queue| ==> queue[i].View() == views[i]
  }

  /** A queue of shared messages: no message is queued twice. */
  predicate Proper(queue: seq<ModbusMessage>) {
    forall i, j :: 0 <= i < j < |queue| ==> queue[i] != queue[j]
  }

  /** The first message that has not expired, if there is one, has a buffer to convert. */
  ghost predicate Sendable(queue: seq<ModbusMessage>, timeout: int, clock: Clock)
    reads queue
  {
    var n := ExpiredCount(Views(queue), timeout, clock, 0);
    n < |queue| ==> queue[n].buffer != null
  }

  function BufferOf(message: ModbusMessage): set<ModbusBuffer> {
    if message.buffer == null then {} else {message.buffer}
  }

  function Buffers(queue: seq<ModbusMessage>): set<ModbusBuffer> {
    set m | m in queue && m.buffer != null :: m.buffer as ModbusBuffer
  }

  /** One iteration of the loop below. */
  lemma DropOne(pipe: Pipe, timeout: int, clock: Clock, k: nat)
    requires pipe.queue != [] && Expired(pipe.queue[0].info, timeout, clock(k))
    ensures DropExpired(pipe, timeout, clock, k) == DropExpired(Drop(pipe, clock(k)), timeout, clock, k + 1)
    ensures ExpiredCount(pipe.queue, timeout, clock, k) == 1 + ExpiredCount(pipe.queue[1..], timeout, clock, k + 1)
  {
  }

  /** The end of the loop. */
  lemma DropNone(pipe: Pipe, timeout: int, clock: Clock, k: nat)
    requires pipe.queue == [] || !Expired(pipe.queue[0].info, timeout, clock(k))
    ensures DropExpired(pipe, timeout, clock, k) == pipe && ExpiredCount(pipe.queue, timeout, clock, k) == 0
  {
  }

  /** The loop that pops what has expired. TimeoutReached writes to the messages it is asked about, but those that stay
      queued are as they were. */
  method PopLate(queue: LimitQueue<ModbusMessage>, timeout: int, clock: Clock, ghost pipe: Pipe)
    returns (ghost popped: Pipe)
    requires Proper(queue.queue) && Show(queue.queue, pipe.queue)
    modifies queue, queue.queue
    ensures popped == DropExpired(pipe, timeout, clock, 0)
    ensures queue.queue == old(queue.queue)[ExpiredCount(pipe.queue, timeout, clock, 0)..]
    ensures Show(queue.queue, popped.queue)
  {
    hide DropExpired, ExpiredCount;
    ghost var all := queue.queue;
    popped := pipe;
    var k := 0;
    while !queue.Empty()
      invariant k <= |all| && queue.queue == all[k..]
      invariant Show(queue.queue, popped.queue)
      invariant DropExpired(popped, timeout, clock, k) == DropExpired(pipe, timeout, clock, 0)
      invariant k + ExpiredCount(popped.queue, timeout, clock, k) == ExpiredCount(pipe.queue, timeout, clock, 0)
      decreases |queue.queue|
    {
      var message := queue.Front();
      var reached := message.TimeoutReached(timeout, clock(k));
      if !reached {
        break;
      }
      DropOne(popped, timeout, clock, k);
      popped := Drop(popped, clock(k));
      queue.Pop();
      k := k + 1;
    }
    DropNone(popped, timeout, clock, k);
  }

  function ReplyOf(frame: Frame, sizeOk: bool, checkOk: bool, answers: int): Reply {
    Reply(sizeOk, checkOk, frame.transactionId, PayloadOf(frame), answers)
  }

  class RequestPipe {
    const messageQueue: LimitQueue<ModbusMessage>
    var currentMessage: Option<(ModbusMessage, TransactionId)>
    var transactionIdGenerator: TransactionId
    ghost var log: Log

    constructor ()
      ensures Valid() && View() == EMPTY_PIPE && Held() == {}
      ensures fresh(messageQueue)
    {
      messageQueue := new LimitQueue(SIZE_MAX);
      currentMessage, transactionIdGenerator := None, 0;
      log := EMPTY_PIPE.log;
    }

    ghost predicate Valid()
      reads this, messageQueue
    {
      && messageQueue.maxSize == SIZE_MAX
      && Proper(messageQueue.queue)
      && (currentMessage.Some? ==> currentMessage.value.0 !in messageQueue.queue)
    }

    /** The messages this master holds on to. */
    ghost function Held(): set<ModbusMessage>
      reads this, messageQueue
    {
      (set m | m in messageQueue.queue) + (if currentMessage.Some? then {currentMessage.value.0} else {})
    }

    ghost function View(): Pipe
      reads this, messageQueue, Held()
    {
      Pipe(
        Views(messageQueue.queue),
        if currentMessage.Some? then Some(Current(currentMessage.value.0.View(), currentMessage.value.1)) else None,
        transactionIdGenerator,
        log)
    }

    /** What a handler does to the buffers of queued messages: it writes to one only when its message moves from the queue to
        the slot. Such a buffer keeps its unit id and PDU, and gets the frame type of the master. */
    twostate predicate WritesOnlyStarted(buffers: set<ModbusBuffer>, frameType: FrameType)
      reads this, buffers
    {
      forall b :: b in buffers ==>
        || b.frame == old(b.frame)
        || (&& currentMessage.Some? && currentMessage.value.0.buffer == b
            && b.frame.frameType == frameType && PayloadOf(b.frame) == PayloadOf(old(b.frame)))
    }

    method Enqueue(message: ModbusMessage)
      requires Valid() && message !in Held()
      modifies this`log, messageQueue
      ensures Valid() && View() == Pipeline.Enqueue(old(View()), message.View())
      ensures messageQueue.queue == Pushed(old(messageQueue.queue), SIZE_MAX, message)
      ensures Buffers(messageQueue.queue) <= old(Buffers(messageQueue.queue)) + BufferOf(message)
      ensures forall m :: m in messageQueue.queue ==> m in old(messageQueue.queue) || m == message
    {
      messageQueue.Push(message);
      log := log.(received := log.received + [message.View()],
                  fates := if |old(messageQueue.queue)| > SIZE_MAX then log.fates + [Fate(Evicted, 0)] else log.fates);
      assert Views(messageQueue.queue) == Pushed(old(Views(messageQueue.queue)), SIZE_MAX, message.View());
    }

    method PopExpired(timeout: int, clock: Clock)
      requires Valid() && currentMessage.None?
      modifies this`log, messageQueue, messageQueue.queue
      ensures Valid() && View() == DropExpired(old(View()), timeout, clock, 0)
      ensures log.delivered == old(log.delivered)
      ensures messageQueue.queue == old(messageQueue.queue)[ExpiredCount(old(View()).queue, timeout, clock, 0)..]
    {
      hide Drop, DropExpired, ExpiredCount;
      ghost var start := View();
      ghost var popped := PopLate(messageQueue, timeout, clock, start);
      DropExpiredShape(start, timeout, clock, 0);
      log := popped.log;
    }

    /** The front message moves into the slot. */
    method TakeFront(ghost at: int)
      requires Valid() && currentMessage.None? && messageQueue.queue != []
      modifies this, messageQueue
      ensures Valid() && View() == Dispatch(old(View()), at)
      ensures currentMessage == Some((old(messageQueue.queue[0]), transactionIdGenerator))
    {
      hide NextId;
      ghost var rest := messageQueue.queue[1..];
      assert Views(messageQueue.queue)[1..] == Views(rest);
      transactionIdGenerator := NextId(transactionIdGenerator);
      currentMessage := Some((messageQueue.Front(), transactionIdGenerator));
      messageQueue.Pop();
      assert messageQueue.queue == rest;
      log := log.(fates := log.fates + [Fate(Sent, at)],
                  dispatched := log.dispatched + [Current(currentMessage.value.0.View(), transactionIdGenerator)]);
    }

    /** A response for the request that was in the slot. */
    ghost method Deliver(response: ModbusMessage, answers: int)
      requires Valid()
      modifies this`log
      ensures Valid()
      ensures var d := Delivery(|log.dispatched| - 1, response.View(), answers);
              View() == old(View()).(log := old(log).(delivered := old(log.delivered) + [d]))
    {
      log := log.(delivered := log.delivered + [Delivery(|log.dispatched| - 1, response.View(), answers)]);
    }

    method Reset()
      requires Valid()
      modifies this`currentMessage
      ensures Valid() && View() == Free(old(View()))
    {
      currentMessage := None;
    }
  }
}
