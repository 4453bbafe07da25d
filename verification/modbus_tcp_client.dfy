/** ModbusTcpClient with its fields and handlers (modbus_tcp_client.cpp). Every handler does what the step machine of module
    TcpClient does, so whatever is proved about its runs holds of this object. */
module TcpClientActor {
  import opened LimitQueues
  import opened Messages
  import opened Pipeline
  import opened PendingIo
  import opened Ports
  import opened RequestPipes
  import TcpClient

  class ModbusTcpClient {
    const timeout: int
    const socket: Port
    const pipe: RequestPipe
    var state: TcpClient.Link

    constructor (timeout: int)
      ensures Valid() && View() == TcpClient.Init(timeout)
      ensures fresh(socket) && fresh(pipe) && fresh(pipe.messageQueue)
    {
      this.timeout := timeout;
      socket := new Port();
      pipe := new RequestPipe();
      state := TcpClient.Idle;
    }

    ghost predicate Valid()
      reads pipe, pipe.messageQueue
    {
      pipe.Valid()
    }

    ghost function View(): TcpClient.State
      reads this, pipe, pipe.messageQueue, pipe.Held(), socket
    {
      TcpClient.State(timeout, state, pipe.View(), socket.io, socket.connects)
    }

    /** The request in the slot is converted: a TCP frame under its identifier. */
    ghost predicate Converted()
      reads pipe
      reads if pipe.currentMessage.Some? && pipe.currentMessage.value.0.buffer != null
            then {pipe.currentMessage.value.0.buffer} else {}
    {
      && pipe.currentMessage.Some? && pipe.currentMessage.value.0.buffer != null
      && var frame := pipe.currentMessage.value.0.buffer.frame;
         frame.frameType.TCP? && frame.transactionId == pipe.currentMessage.value.1
    }

    /** A message of the exchange arrives. */
    method Receive(message: ModbusMessage, clock: Clock)
      requires Valid() && message !in pipe.Held()
      requires state == TcpClient.Connected && pipe.currentMessage.None? ==>
                 Sendable(Pushed(pipe.messageQueue.queue, SIZE_MAX, message), timeout, clock)
      modifies this, pipe, pipe.messageQueue, pipe.messageQueue.queue, Buffers(pipe.messageQueue.queue),
               message, BufferOf(message), socket
      ensures Valid() && View() == TcpClient.Step(old(View()), TcpClient.Receive(old(message.View()), clock))
      ensures pipe.WritesOnlyStarted(old(Buffers(pipe.messageQueue.queue)), TCP)
      ensures pipe.WritesOnlyStarted(BufferOf(message), TCP)
      ensures old(pipe.currentMessage).None? && pipe.currentMessage.Some? ==> Converted()
    {
      hide Sendable, Advance, ExpiredCount;
      pipe.Enqueue(message);
      QueueProcess(clock);
    }

    method QueueProcess(clock: Clock)
      requires Valid()
      requires state == TcpClient.Connected && pipe.currentMessage.None? ==> Sendable(pipe.messageQueue.queue, timeout, clock)
      modifies this, pipe, pipe.messageQueue, pipe.messageQueue.queue, Buffers(pipe.messageQueue.queue), socket
      ensures Valid() && View() == TcpClient.QueueProcess(old(View()), clock)
      ensures pipe.WritesOnlyStarted(old(Buffers(pipe.messageQueue.queue)), TCP)
      ensures old(pipe.currentMessage).None? && pipe.currentMessage.Some? ==> Converted()
      ensures pipe.log.delivered == old(pipe.log.delivered)
    {
      if pipe.messageQueue.Empty() {
        return;
      }
      match state {
        case Idle => socket.AsyncConnect();
        case WaitConnect =>
        case Connected => StartMessageTask(clock);
        case MessageProcess =>
      }
    }

    method StartMessageTask(clock: Clock)
      requires Valid()
      requires pipe.currentMessage.None? ==> Sendable(pipe.messageQueue.queue, timeout, clock)
      modifies this, pipe, pipe.messageQueue, pipe.messageQueue.queue, Buffers(pipe.messageQueue.queue), socket
      ensures Valid() && View() == TcpClient.StartMessage(old(View()), clock)
      ensures pipe.WritesOnlyStarted(old(Buffers(pipe.messageQueue.queue)), TCP)
      ensures old(pipe.currentMessage).None? && pipe.currentMessage.Some? ==> Converted()
      ensures pipe.log.delivered == old(pipe.log.delivered)
    {
      if pipe.currentMessage.Some? {
        return;
      }
      ghost var start := pipe.View();
      pipe.PopExpired(timeout, clock);
      if pipe.messageQueue.Empty() {
        assert pipe.View() == Advance(start, timeout, clock);
        return;
      }
      SendFront(clock(ExpiredCount(start.queue, timeout, clock, 0)));
      assert pipe.View() == Advance(start, timeout, clock);
    }

    method SendFront(ghost at: int)
      requires Valid() && pipe.currentMessage.None?
      requires pipe.messageQueue.queue != [] && pipe.messageQueue.queue[0].buffer != null
      modifies this, pipe, pipe.messageQueue, pipe.messageQueue.queue[0].buffer, socket
      ensures Valid() && state == TcpClient.MessageProcess && pipe.View() == Dispatch(old(pipe.View()), at)
      ensures socket.io == StartWrite(old(socket.io), pipe.View().current.value.msg.buffer)
      ensures socket.connects == old(socket.connects)
      ensures pipe.currentMessage.value.0 == old(pipe.messageQueue.queue[0]) && Converted()
      ensures PayloadOf(pipe.currentMessage.value.0.buffer.frame) == old(PayloadOf(pipe.messageQueue.queue[0].buffer.frame))
      ensures pipe.log.delivered == old(pipe.log.delivered)
    {
      hide StartWrite;
      state := TcpClient.MessageProcess;
      pipe.TakeFront(at);
      var modbusBuffer: ModbusBuffer := pipe.currentMessage.value.0.buffer;
      modbusBuffer.ConvertTo(TCP);
      modbusBuffer.Update();
      modbusBuffer.SetTransactionId(pipe.currentMessage.value.1);
      socket.AsyncWrite(modbusBuffer);
    }

    /** A pending connect completed; it is not always the only one. */
    method ConnectDone(ec: Ec, clock: Clock)
      requires Valid() && TcpClient.Enabled(View(), TcpClient.ConnectDone(ec, clock))
      requires ec.Ok? && pipe.currentMessage.None? ==> Sendable(pipe.messageQueue.queue, timeout, clock)
      modifies this, pipe, pipe.messageQueue, pipe.messageQueue.queue, Buffers(pipe.messageQueue.queue), socket
      ensures Valid() && View() == TcpClient.Step(old(View()), TcpClient.ConnectDone(ec, clock))
      ensures pipe.WritesOnlyStarted(old(Buffers(pipe.messageQueue.queue)), TCP)
      ensures old(pipe.currentMessage).None? && pipe.currentMessage.Some? ==> Converted()
    {
      socket.EndConnect();
      if !ec.Ok? {
        state := TcpClient.Idle;
        return;
      }
      state := TcpClient.Connected;
      QueueProcess(clock);
    }

    /** A send or receive failed. */
    method Break(ec: Ec)
      requires Valid() && !ec.Ok?
      modifies this, pipe, socket
      ensures Valid() && View() == TcpClient.Broken(old(View()), ec)
      ensures pipe.log == old(pipe.log) && pipe.messageQueue.queue == old(pipe.messageQueue.queue)
    {
      pipe.Reset();
      state := TcpClient.Connected;
      if !ec.Aborted? {
        state := TcpClient.Idle;
        socket.Close();
      }
    }

    /** The send of the request in the slot completed. On success a timer is started, and a receive into a new buffer. */
    method SendDone(ghost write: nat, ec: Ec, ghost readBuffer: nat) returns (modbusBuffer: ModbusBuffer?)
      requires Valid() && TcpClient.Enabled(View(), TcpClient.SendDone(write, ec, readBuffer))
      modifies this, pipe, socket
      ensures Valid() && View() == TcpClient.Step(old(View()), TcpClient.SendDone(write, ec, readBuffer))
      ensures modbusBuffer != null <==> ec.Ok?
      ensures modbusBuffer != null ==>
                fresh(modbusBuffer) && modbusBuffer.handle == readBuffer && modbusBuffer.frame.frameType.TCP?
    {
      socket.EndWrite(write);
      if !ec.Ok? {
        Break(ec);
        return null;
      }
      modbusBuffer := new ModbusBuffer(readBuffer, Frame(TCP, 0, [], 0));
      socket.AsyncWaitAndRead(modbusBuffer);
    }

    /** The timer handler. */
    method WaitDone(ghost wait: nat, ec: Ec, cancelled: bool)
      requires Valid() && TcpClient.Enabled(View(), TcpClient.WaitDone(wait, ec, cancelled))
      modifies socket
      ensures Valid() && View() == TcpClient.Step(old(View()), TcpClient.WaitDone(wait, ec, cancelled))
    {
      socket.EndWait(wait, ec, cancelled);
    }

    /** A receive into modbusBuffer completed. A response is sent to the source of the request in the slot. */
    method ReceiveDone(ghost read: nat, exchangeAlive: bool, ec: Ec, modbusBuffer: ModbusBuffer, sizeOk: bool,
                       checkOk: bool, ghost answers: int, clock: Clock)
      returns (sent: Option<(ActorId, ModbusMessage)>)
      requires Valid() && read < |socket.io.reading| && socket.io.reading[read].buffer == modbusBuffer.handle
      requires exchangeAlive && ec.Ok? && (sizeOk || pipe.currentMessage.None?) ==>
                 Sendable(pipe.messageQueue.queue, timeout, clock)
      requires ec.Aborted? ==> socket.io.reading[read].cancelled
      modifies this, pipe, pipe.messageQueue, pipe.messageQueue.queue, Buffers(pipe.messageQueue.queue), socket
      ensures Valid()
      ensures var reply := old(ReplyOf(modbusBuffer.frame, sizeOk, checkOk, answers));
              View() == TcpClient.Step(old(View()), TcpClient.ReceiveDone(read, exchangeAlive, ec, reply, clock))
      ensures pipe.log.delivered == old(pipe.log.delivered) +
                (if sent.Some? then [Delivery(|old(pipe.log.dispatched)| - 1, sent.value.1.View(), answers)] else [])
      ensures sent.Some? ==> fresh(sent.value.1) && sent.value.1.buffer == modbusBuffer
      ensures sent.Some? ==> old(pipe.currentMessage).Some? && sent.value.0 == old(pipe.currentMessage.value.0.info.sourceId)
      ensures pipe.WritesOnlyStarted(old(Buffers(pipe.messageQueue.queue)), TCP)
    {
      hide Respond, Sendable, TcpClient.QueueProcess, PendingIo.EndRead, PendingIo.CancelTimer;
      socket.EndRead(read);
      sent := None;
      if !exchangeAlive {
        return;
      }
      socket.CancelTimer();
      if !ec.Ok? {
        Break(ec);
        return;
      }
      sent := Reply(modbusBuffer, sizeOk, checkOk, answers, clock);
    }

    /** The end of the receive handler. */
    method Reply(modbusBuffer: ModbusBuffer, sizeOk: bool, checkOk: bool, ghost answers: int, clock: Clock)
      returns (sent: Option<(ActorId, ModbusMessage)>)
      requires Valid()
      requires sizeOk || pipe.currentMessage.None? ==> Sendable(pipe.messageQueue.queue, timeout, clock)
      modifies this, pipe, pipe.messageQueue, pipe.messageQueue.queue, Buffers(pipe.messageQueue.queue), socket
      ensures Valid()
      ensures var s, reply := old(View()), old(ReplyOf(modbusBuffer.frame, sizeOk, checkOk, answers));
              View() == TcpClient.QueueProcess(
                s.(pipe := Respond(s.pipe, modbusBuffer.handle, reply, TcpClient.Accepts(s, reply)),
                   link := TcpClient.Connected), clock)
      ensures pipe.log.delivered == old(pipe.log.delivered) +
                (if sent.Some? then [Delivery(|old(pipe.log.dispatched)| - 1, sent.value.1.View(), answers)] else [])
      ensures sent.Some? ==> fresh(sent.value.1) && sent.value.1.buffer == modbusBuffer
      ensures sent.Some? ==> old(pipe.currentMessage).Some? && sent.value.0 == old(pipe.currentMessage.value.0.info.sourceId)
      ensures pipe.WritesOnlyStarted(old(Buffers(pipe.messageQueue.queue)), TCP)
    {
      hide TcpClient.QueueProcess, StartWrite;
      sent := None;
      var response := MakeResponse(modbusBuffer, sizeOk, checkOk, answers);
      if response != null {
        sent := Some((response.info.sourceId, response));
      }
      state := TcpClient.Connected;
      QueueProcess(clock);
    }

    method MakeResponse(modbusBuffer: ModbusBuffer, sizeOk: bool, checkOk: bool, ghost answers: int)
      returns (response: ModbusMessage?)
      requires Valid()
      modifies pipe
      ensures Valid() && pipe.messageQueue.queue == old(pipe.messageQueue.queue)
      ensures var reply := ReplyOf(modbusBuffer.frame, sizeOk, checkOk, answers);
              pipe.View() == Respond(old(pipe.View()), modbusBuffer.handle, reply, TcpClient.Accepts(old(View()), reply))
      ensures pipe.log.delivered == old(pipe.log.delivered) +
                (if response != null then [Delivery(|pipe.log.dispatched| - 1, response.View(), answers)] else [])
      ensures response != null ==>
                && fresh(response) && response.buffer == modbusBuffer
                && old(pipe.currentMessage).Some? && response.info == old(pipe.currentMessage.value.0.info)
    {
      if pipe.currentMessage.None? {
        return null;
      }
      if !sizeOk {
        return null;
      }
      var currentInfo, id := pipe.currentMessage.value.0.info, pipe.currentMessage.value.1;
      pipe.Reset();
      if !checkOk {
        return null;
      }
      if modbusBuffer.frame.transactionId != id {
        return null;
      }
      response := new ModbusMessage(currentInfo, modbusBuffer);
      pipe.Deliver(response, answers);
    }
  }
}
