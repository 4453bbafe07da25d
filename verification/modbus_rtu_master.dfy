/** ModbusRtuMaster with its fields and handlers (modbus_rtu_master.cpp). Every handler does what the step machine of module
    RtuMaster does, so whatever is proved about its runs holds of this object. */
module RtuMasterActor {
  import opened LimitQueues
  import opened Messages
  import opened Pipeline
  import opened PendingIo
  import opened Ports
  import opened RequestPipes
  import RtuMaster

  class ModbusRtuMaster {
    const timeout: int
    const frameType: FrameType
    const serialPort: Port
    const pipe: RequestPipe

    constructor (timeout: int, frameType: FrameType)
      requires !frameType.TCP?
      ensures Valid() && View() == RtuMaster.Init(timeout) && this.frameType == frameType
      ensures fresh(serialPort) && fresh(pipe) && fresh(pipe.messageQueue)
    {
      this.timeout, this.frameType := timeout, frameType;
      serialPort := new Port();
      pipe := new RequestPipe();
    }

    ghost predicate Valid()
      reads pipe, pipe.messageQueue
    {
      !frameType.TCP? && pipe.Valid()
    }

    ghost function View(): RtuMaster.State
      reads pipe, pipe.messageQueue, pipe.Held(), serialPort
    {
      RtuMaster.State(timeout, pipe.View(), serialPort.io)
    }

    /** A message of the exchange arrives. */
    method Receive(message: ModbusMessage, clock: Clock)
      requires Valid() && message !in pipe.Held()
      requires pipe.currentMessage.None? ==>
                 Sendable(Pushed(pipe.messageQueue.queue, SIZE_MAX, message), timeout, clock)
      modifies pipe, pipe.messageQueue, pipe.messageQueue.queue, Buffers(pipe.messageQueue.queue),
               message, BufferOf(message), serialPort
      ensures Valid() && View() == RtuMaster.Step(old(View()), RtuMaster.Receive(old(message.View()), clock))
      ensures pipe.WritesOnlyStarted(old(Buffers(pipe.messageQueue.queue)), frameType)
      ensures pipe.WritesOnlyStarted(BufferOf(message), frameType)
      ensures old(pipe.currentMessage).None? && pipe.currentMessage.Some? ==>
                pipe.currentMessage.value.0.buffer != null && pipe.currentMessage.value.0.buffer.frame.frameType == frameType
    {
      hide Advance, ExpiredCount, Sendable;
      pipe.Enqueue(message);
      QueueProcess(clock);
    }

    method QueueProcess(clock: Clock)
      requires Valid()
      requires pipe.currentMessage.None? ==> Sendable(pipe.messageQueue.queue, timeout, clock)
      modifies pipe, pipe.messageQueue, pipe.messageQueue.queue, Buffers(pipe.messageQueue.queue), serialPort
      ensures Valid() && View() == RtuMaster.QueueProcess(old(View()), clock)
      ensures pipe.WritesOnlyStarted(old(Buffers(pipe.messageQueue.queue)), frameType)
      ensures old(pipe.currentMessage).None? && pipe.currentMessage.Some? ==>
                pipe.currentMessage.value.0.buffer != null && pipe.currentMessage.value.0.buffer.frame.frameType == frameType
      ensures pipe.log.delivered == old(pipe.log.delivered)
    {
      hide DropExpired, ExpiredCount, Views, StartWrite;
      if pipe.messageQueue.Empty() {
        return;
      }
      if pipe.currentMessage.Some? {
        return;
      }
      ghost var start := pipe.View();
      pipe.PopExpired(timeout, clock);
      if pipe.messageQueue.Empty() {
        assert pipe.View() == Advance(start, timeout, clock);
        return;
      }
      StartMessageTask(clock(ExpiredCount(start.queue, timeout, clock, 0)));
      assert pipe.View() == Advance(start, timeout, clock);
    }

    method StartMessageTask(ghost at: int)
      requires Valid() && pipe.currentMessage.None?
      requires pipe.messageQueue.queue != [] && pipe.messageQueue.queue[0].buffer != null
      modifies pipe, pipe.messageQueue, pipe.messageQueue.queue[0].buffer, serialPort
      ensures Valid() && pipe.View() == Dispatch(old(pipe.View()), at)
      ensures serialPort.io == StartWrite(old(serialPort.io), pipe.View().current.value.msg.buffer)
      ensures pipe.currentMessage.value.0 == old(pipe.messageQueue.queue[0])
      ensures var b := pipe.currentMessage.value.0.buffer;
              b.frame.frameType == frameType && PayloadOf(b.frame) == old(PayloadOf(pipe.messageQueue.queue[0].buffer.frame))
      ensures pipe.log.delivered == old(pipe.log.delivered)
    {
      pipe.TakeFront(at);
      var modbusBuffer: ModbusBuffer := pipe.currentMessage.value.0.buffer;
      modbusBuffer.ConvertTo(frameType);
      modbusBuffer.Update();
      serialPort.AsyncWrite(modbusBuffer);
    }

    /** The write of the request in the slot completed. On success a timer is started, and a read into a new buffer. */
    method WriteDone(ghost write: nat, ec: Ec, ghost readBuffer: nat) returns (modbusBuffer: ModbusBuffer?)
      requires Valid() && RtuMaster.Enabled(View(), RtuMaster.WriteDone(write, ec, readBuffer))
      modifies pipe, serialPort
      ensures Valid() && View() == RtuMaster.Step(old(View()), RtuMaster.WriteDone(write, ec, readBuffer))
      ensures modbusBuffer != null <==> ec.Ok?
      ensures modbusBuffer != null ==>
                fresh(modbusBuffer) && modbusBuffer.handle == readBuffer && modbusBuffer.frame.frameType == frameType
    {
      serialPort.EndWrite(write);
      if !ec.Ok? {
        pipe.Reset();
        return null;
      }
      modbusBuffer := new ModbusBuffer(readBuffer, Frame(frameType, 0, [], 0));
      serialPort.AsyncWaitAndRead(modbusBuffer);
    }

    /** The timer handler. */
    method WaitDone(ghost wait: nat, ec: Ec, cancelled: bool)
      requires Valid() && RtuMaster.Enabled(View(), RtuMaster.WaitDone(wait, ec, cancelled))
      modifies serialPort
      ensures Valid() && View() == RtuMaster.Step(old(View()), RtuMaster.WaitDone(wait, ec, cancelled))
    {
      serialPort.EndWait(wait, ec, cancelled);
    }

    /** A read into modbusBuffer completed. A response is sent to the source of the request in the slot. */
    method ReadDone(ghost read: nat, exchangeAlive: bool, ec: Ec, modbusBuffer: ModbusBuffer, sizeOk: bool, checkOk: bool,
                    ghost answers: int, clock: Clock)
      returns (sent: Option<(ActorId, ModbusMessage)>)
      requires Valid() && read < |serialPort.io.reading| && serialPort.io.reading[read].buffer == modbusBuffer.handle
      requires exchangeAlive && ec.Ok? && (sizeOk || pipe.currentMessage.None?) ==>
                 Sendable(pipe.messageQueue.queue, timeout, clock)
      requires ec.Aborted? ==> serialPort.io.reading[read].cancelled
      modifies pipe, pipe.messageQueue, pipe.messageQueue.queue, Buffers(pipe.messageQueue.queue), serialPort
      ensures Valid()
      ensures var reply := old(ReplyOf(modbusBuffer.frame, sizeOk, checkOk, answers));
              View() == RtuMaster.Step(old(View()), RtuMaster.ReadDone(read, exchangeAlive, ec, reply, clock))
      ensures pipe.log.delivered == old(pipe.log.delivered) +
                (if sent.Some? then [Delivery(|old(pipe.log.dispatched)| - 1, sent.value.1.View(), answers)] else [])
      ensures sent.Some? ==> fresh(sent.value.1) && sent.value.1.buffer == modbusBuffer
      ensures pipe.WritesOnlyStarted(old(Buffers(pipe.messageQueue.queue)), frameType)
      ensures sent.Some? ==> old(pipe.currentMessage).Some? && sent.value.0 == old(pipe.currentMessage.value.0.info.sourceId)
    {
      hide Respond, Sendable, RtuMaster.QueueProcess, PendingIo.EndRead, PendingIo.CancelTimer;
      serialPort.EndRead(read);
      sent := None;
      if !exchangeAlive {
        return;
      }
      serialPort.CancelTimer();
      if !ec.Ok? {
        pipe.Reset();
        return;
      }
      sent := Reply(modbusBuffer, sizeOk, checkOk, answers, clock);
    }

    /** The end of the read handler. */
    method Reply(modbusBuffer: ModbusBuffer, sizeOk: bool, checkOk: bool, ghost answers: int, clock: Clock)
      returns (sent: Option<(ActorId, ModbusMessage)>)
      requires Valid()
      requires sizeOk || pipe.currentMessage.None? ==> Sendable(pipe.messageQueue.queue, timeout, clock)
      modifies pipe, pipe.messageQueue, pipe.messageQueue.queue, Buffers(pipe.messageQueue.queue), serialPort
      ensures Valid()
      ensures var s, reply := old(View()), old(ReplyOf(modbusBuffer.frame, sizeOk, checkOk, answers));
              View() == RtuMaster.QueueProcess(s.(pipe := Respond(s.pipe, modbusBuffer.handle, reply, checkOk)), clock)
      ensures pipe.log.delivered == old(pipe.log.delivered) +
                (if sent.Some? then [Delivery(|old(pipe.log.dispatched)| - 1, sent.value.1.View(), answers)] else [])
      ensures sent.Some? ==> fresh(sent.value.1) && sent.value.1.buffer == modbusBuffer
      ensures sent.Some? ==> old(pipe.currentMessage).Some? && sent.value.0 == old(pipe.currentMessage.value.0.info.sourceId)
      ensures pipe.WritesOnlyStarted(old(Buffers(pipe.messageQueue.queue)), frameType)
    {
      hide Views;
      sent := None;
      var response := MakeResponse(modbusBuffer, sizeOk, checkOk, answers);
      if response != null {
        sent := Some((response.info.sourceId, response));
      }
      QueueProcess(clock);
    }

    method MakeResponse(modbusBuffer: ModbusBuffer, sizeOk: bool, checkOk: bool, ghost answers: int)
      returns (response: ModbusMessage?)
      requires Valid()
      modifies pipe
      ensures Valid() && pipe.messageQueue.queue == old(pipe.messageQueue.queue)
      ensures var reply := ReplyOf(modbusBuffer.frame, sizeOk, checkOk, answers);
              pipe.View() == Respond(old(pipe.View()), modbusBuffer.handle, reply, checkOk)
      ensures pipe.log.delivered == old(pipe.log.delivered) +
                (if response != null then [Delivery(|pipe.log.dispatched| - 1, response.View(), answers)] else [])
      ensures response != null ==>
                && fresh(response) && response.buffer == modbusBuffer
                && old(pipe.currentMessage).Some? && response.info == old(pipe.currentMessage.value.0.info)
    {
      if pipe.currentMessage.None? {
        return null;
      }
      if !sizeOk {
        return null;
      }
      var currentInfo := pipe.currentMessage.value.0.info;
      pipe.Reset();
      if !checkOk {
        return null;
      }
      response := new ModbusMessage(currentInfo, modbusBuffer);
      pipe.Deliver(response, answers);
    }
  }
}
