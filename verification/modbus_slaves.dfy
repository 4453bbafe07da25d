/** The two accepting actors with their fields and handlers: ModbusTcpConnection (modbus_tcp_connection.cpp) and
    ModbusRtuSlave (modbus_rtu_slave.cpp). Every handler does what the step machine of module Slave does. */
module SlaveActors {
  import opened Messages
  import opened Routing
  import Slave

  /** What becomes of a response: it is written if and only if it matches the record and has a buffer. The buffer is converted
      in place, keeping its unit id and PDU. */
  twostate predicate Answered(message: ModbusMessage, matched: bool, frameType: FrameType,
                              new written: ModbusBuffer?)
    reads if message.buffer == null then {} else {message.buffer}
  {
    && written == (if matched then message.buffer else null)
    && (written != null ==>
          && written.frame.frameType == frameType
          && PayloadOf(message.buffer.frame) == PayloadOf(old(message.buffer.frame)))
    && (written == null && message.buffer != null ==> message.buffer.frame == old(message.buffer.frame))
  }

  class ModbusTcpConnection {
    const id: ActorId
    const router: Router
    var syncRequestInfo: Option<Info>
    ghost var reading: seq<nat>
    ghost var writing: seq<nat>
    ghost var accepted: seq<Info>
    ghost var consumed: seq<Slave.Consumption>

    constructor (id: ActorId, router: Router)
      ensures View() == Slave.Init(id, Slave.Connection) && this.router == router
    {
      this.id, this.router := id, router;
      syncRequestInfo := None;
      reading, writing, accepted, consumed := [], [], [], [];
    }

    ghost function View(): Slave.State
      reads this
    {
      Slave.State(id, Slave.Connection, syncRequestInfo, 0, reading, writing, accepted, consumed)
    }

    /** Where a unit id is routed. The table has no entry for 255; what the program finds past its end is an input. */
    function RouteOf(unitId: Byte, pastTheEnd: ActorId): ActorId
      requires router.Valid()
      reads router.routeMap
    {
      if unitId < TABLE_SIZE then router.Route(unitId) else pastTheEnd
    }

    method Start(ghost handle: nat) returns (modbusBuffer: ModbusBuffer)
      modifies this
      ensures View() == Slave.Step(old(View()), Slave.Start(handle))
      ensures fresh(modbusBuffer) && modbusBuffer.handle == handle && modbusBuffer.frame.frameType.TCP?
    {
      modbusBuffer := StartReceiveTask(handle);
    }

    method StartReceiveTask(ghost handle: nat) returns (modbusBuffer: ModbusBuffer)
      modifies this`reading
      ensures View() == old(View()).(reading := old(reading) + [handle])
      ensures fresh(modbusBuffer) && modbusBuffer.handle == handle && modbusBuffer.frame.frameType.TCP?
    {
      modbusBuffer := new ModbusBuffer(handle, Frame(TCP, 0, [], 0));
      reading := reading + [handle];
    }

    /** A receive into modbusBuffer completed. A valid request becomes the record and is sent where its unit id is routed; the
        server is told when the client is gone; in all other cases the next receive is started, into a buffer of its own. */
    method ReceiveDone(ghost read: nat, exchangeAlive: bool, end: Slave.ReadEnd, modbusBuffer: ModbusBuffer, sizeOk: bool,
                       checkOk: bool, now: int, tag: nat, ghost nextHandle: nat, pastTheEnd: ActorId)
      returns (sent: Option<(ActorId, ModbusMessage)>, disconnected: bool, nextBuffer: ModbusBuffer?)
      requires read < |reading| && reading[read] == modbusBuffer.handle
      requires router.Valid()
      modifies this
      ensures var e := Slave.ReadDone(
                read, exchangeAlive, end, Slave.Request(sizeOk, checkOk, modbusBuffer.frame), now, tag, nextHandle);
              && View() == Slave.Step(old(View()), e)
              && (sent.Some? <==> Slave.Accepts(e))
      ensures sent.Some? ==>
                && sent.value.0 == (if modbusBuffer.frame.unitId < TABLE_SIZE
                                    then router.routeMap[modbusBuffer.frame.unitId] else pastTheEnd)
                && fresh(sent.value.1) && sent.value.1.buffer == modbusBuffer && Some(sent.value.1.info) == syncRequestInfo
                && sent.value.1.info.transactionId == modbusBuffer.frame.transactionId
      ensures disconnected <==> exchangeAlive && end.Closed?
      ensures nextBuffer != null <==> exchangeAlive && !end.Closed?
      ensures nextBuffer != null ==>
                fresh(nextBuffer) && nextBuffer.handle == nextHandle && nextBuffer.frame.frameType.TCP?
    {
      reading := Slave.Without(reading, read);
      sent, disconnected, nextBuffer := None, false, null;
      if !exchangeAlive {
        return;
      }
      if !end.Data? {
        if end.Closed? {
          disconnected := true;
          return;
        }
        nextBuffer := StartReceiveTask(nextHandle);
        return;
      }
      var message := MakeRequest(modbusBuffer, sizeOk, checkOk, now, tag);
      if message == null {
        nextBuffer := StartReceiveTask(nextHandle);
        return;
      }
      syncRequestInfo := Some(message.info);
      accepted := accepted + [message.info];
      sent := Some((RouteOf(modbusBuffer.frame.unitId, pastTheEnd), message));
      nextBuffer := StartReceiveTask(nextHandle);
    }

    method MakeRequest(modbusBuffer: ModbusBuffer, sizeOk: bool, checkOk: bool, now: int, tag: nat)
      returns (message: ModbusMessage?)
      ensures message != null <==> sizeOk && checkOk
      ensures message != null ==> fresh(message) && message.buffer == modbusBuffer &&
                                  message.info == Info(now, false, id, modbusBuffer.frame.transactionId, tag)
    {
      if !sizeOk {
        return null;
      }
      if !checkOk {
        return null;
      }
      message := new ModbusMessage(Info(now, false, id, modbusBuffer.frame.transactionId, tag), modbusBuffer);
    }

    /** A response of the exchange arrives. The frame that is sent to the client carries the identifier that the record has,
        which is the one the client sent. */
    method Receive(message: ModbusMessage) returns (written: ModbusBuffer?)
      modifies this, if message.buffer == null then {} else {message.buffer}
      ensures View() == Slave.Step(old(View()), Slave.Receive(message.info, HandleOf(message)))
      ensures Answered(message, Slave.Matches(old(View()), message.info), TCP, written)
      ensures written != null ==> old(syncRequestInfo).Some? &&
                                  written.frame.transactionId == old(syncRequestInfo).value.transactionId
    {
      written := MakeResponse(message);
      if written != null {
        writing := writing + [written.handle];
      }
    }

    method MakeResponse(message: ModbusMessage) returns (modbusBuffer: ModbusBuffer?)
      modifies this, if message.buffer == null then {} else {message.buffer}
      ensures View() == Slave.Step(old(View()), Slave.Receive(message.info, HandleOf(message))).(writing := old(writing))
      ensures Answered(message, Slave.Matches(old(View()), message.info), TCP, modbusBuffer)
      ensures modbusBuffer != null ==> modbusBuffer.frame.transactionId == message.info.transactionId
    {
      modbusBuffer := message.buffer;
      if id != message.info.sourceId {
        return null;
      }
      if syncRequestInfo.None? {
        return null;
      }
      if syncRequestInfo.value.transactionId != message.info.transactionId {
        return null;
      }
      syncRequestInfo := None;
      consumed := consumed + [Slave.Consumption(message.info, |accepted| - 1, modbusBuffer != null)];
      if modbusBuffer == null {
        return;
      }
      modbusBuffer.ConvertTo(TCP);
      modbusBuffer.Update();
      modbusBuffer.SetTransactionId(message.info.transactionId);
    }

    method WriteDone(ghost write: nat)
      requires write < |writing|
      modifies this`writing
      ensures View() == Slave.Step(old(View()), Slave.WriteDone(write))
    {
      writing := Slave.Without(writing, write);
    }
  }

  ghost function HandleOf(message: ModbusMessage): Option<nat> {
    if message.buffer == null then None else Some(message.buffer.handle)
  }

  class ModbusRtuSlave {
    const id: ActorId
    const router: Router
    const frameType: FrameType
    var idGenerator: TransactionId
    var syncRequestInfo: Option<Info>
    ghost var reading: seq<nat>
    ghost var writing: seq<nat>
    ghost var accepted: seq<Info>
    ghost var consumed: seq<Slave.Consumption>

    constructor (id: ActorId, router: Router, frameType: FrameType)
      requires !frameType.TCP?
      ensures View() == Slave.Init(id, Slave.Serial(frameType)) && this.router == router
    {
      this.id, this.router, this.frameType := id, router, frameType;
      idGenerator, syncRequestInfo := 0, None;
      reading, writing, accepted, consumed := [], [], [], [];
    }

    ghost function View(): Slave.State
      reads this
    {
      Slave.State(id, Slave.Serial(frameType), syncRequestInfo, idGenerator, reading, writing, accepted, consumed)
    }

    /** Where a unit id is routed. The table has no entry for 255; what the program finds past its end is an input. */
    function RouteOf(unitId: Byte, pastTheEnd: ActorId): ActorId
      requires router.Valid()
      reads router.routeMap
    {
      if unitId < TABLE_SIZE then router.Route(unitId) else pastTheEnd
    }

    method Start(ghost handle: nat) returns (modbusBuffer: ModbusBuffer)
      modifies this
      ensures View() == Slave.Step(old(View()), Slave.Start(handle))
      ensures fresh(modbusBuffer) && modbusBuffer.handle == handle && modbusBuffer.frame.frameType == frameType
    {
      modbusBuffer := StartReadTask(handle);
    }

    method StartReadTask(ghost handle: nat) returns (modbusBuffer: ModbusBuffer)
      modifies this`reading
      ensures View() == old(View()).(reading := old(reading) + [handle])
      ensures fresh(modbusBuffer) && modbusBuffer.handle == handle && modbusBuffer.frame.frameType == frameType
    {
      modbusBuffer := new ModbusBuffer(handle, Frame(frameType, 0, [], 0));
      reading := reading + [handle];
    }

    /** A read into modbusBuffer completed. A valid request gets the next identifier, becomes the record and is sent where its
        unit id is routed; reading stops only when it was cancelled or the line is gone. */
    method ReadDone(ghost read: nat, exchangeAlive: bool, end: Slave.ReadEnd, modbusBuffer: ModbusBuffer, sizeOk: bool,
                    checkOk: bool, now: int, tag: nat, ghost nextHandle: nat, pastTheEnd: ActorId)
      returns (sent: Option<(ActorId, ModbusMessage)>, nextBuffer: ModbusBuffer?)
      requires read < |reading| && reading[read] == modbusBuffer.handle
      requires router.Valid()
      modifies this
      ensures var e := Slave.ReadDone(
                read, exchangeAlive, end, Slave.Request(sizeOk, checkOk, modbusBuffer.frame), now, tag, nextHandle);
              && View() == Slave.Step(old(View()), e)
              && (sent.Some? <==> Slave.Accepts(e))
      ensures sent.Some? ==>
                && sent.value.0 == (if modbusBuffer.frame.unitId < TABLE_SIZE
                                    then router.routeMap[modbusBuffer.frame.unitId] else pastTheEnd)
                && fresh(sent.value.1) && sent.value.1.buffer == modbusBuffer && Some(sent.value.1.info) == syncRequestInfo
                && sent.value.1.info.transactionId == idGenerator == NextId(old(idGenerator))
      ensures nextBuffer != null <==> exchangeAlive && !end.Closed?
      ensures nextBuffer != null ==>
                fresh(nextBuffer) && nextBuffer.handle == nextHandle && nextBuffer.frame.frameType == frameType
    {
      reading := Slave.Without(reading, read);
      sent, nextBuffer := None, null;
      if !exchangeAlive {
        return;
      }
      if !end.Data? {
        if end.Closed? {
          return;
        }
        nextBuffer := StartReadTask(nextHandle);
        return;
      }
      var message := MakeRequest(modbusBuffer, sizeOk, checkOk, now, tag);
      if message == null {
        nextBuffer := StartReadTask(nextHandle);
        return;
      }
      syncRequestInfo := Some(message.info);
      accepted := accepted + [message.info];
      sent := Some((RouteOf(modbusBuffer.frame.unitId, pastTheEnd), message));
      nextBuffer := StartReadTask(nextHandle);
    }

    method MakeRequest(modbusBuffer: ModbusBuffer, sizeOk: bool, checkOk: bool, now: int, tag: nat)
      returns (message: ModbusMessage?)
      modifies this`idGenerator
      ensures message != null <==> sizeOk && checkOk
      ensures idGenerator == if message != null then NextId(old(idGenerator)) else old(idGenerator)
      ensures message != null ==> fresh(message) && message.buffer == modbusBuffer &&
                                  message.info == Info(now, false, id, idGenerator, tag)
    {
      if !sizeOk {
        return null;
      }
      if !checkOk {
        return null;
      }
      idGenerator := NextId(idGenerator);
      message := new ModbusMessage(Info(now, false, id, idGenerator, tag), modbusBuffer);
    }

    /** A response of the exchange arrives. */
    method Receive(message: ModbusMessage) returns (written: ModbusBuffer?)
      modifies this, if message.buffer == null then {} else {message.buffer}
      ensures View() == Slave.Step(old(View()), Slave.Receive(message.info, HandleOf(message)))
      ensures Answered(message, Slave.Matches(old(View()), message.info), frameType, written)
    {
      written := MakeResponse(message);
      if written != null {
        writing := writing + [written.handle];
      }
    }

    method MakeResponse(message: ModbusMessage) returns (modbusBuffer: ModbusBuffer?)
      modifies this, if message.buffer == null then {} else {message.buffer}
      ensures View() == Slave.Step(old(View()), Slave.Receive(message.info, HandleOf(message))).(writing := old(writing))
      ensures Answered(message, Slave.Matches(old(View()), message.info), frameType, modbusBuffer)
    {
      modbusBuffer := message.buffer;
      if id != message.info.sourceId {
        return null;
      }
      if syncRequestInfo.None? {
        return null;
      }
      if syncRequestInfo.value.transactionId != message.info.transactionId {
        return null;
      }
      syncRequestInfo := None;
      consumed := consumed + [Slave.Consumption(message.info, |accepted| - 1, modbusBuffer != null)];
      if modbusBuffer == null {
        return;
      }
      modbusBuffer.ConvertTo(frameType);
      modbusBuffer.Update();
    }

    method WriteDone(ghost write: nat)
      requires write < |writing|
      modifies this`writing
      ensures View() == Slave.Step(old(View()), Slave.WriteDone(write))
    {
      writing := Slave.Without(writing, write);
    }
  }
}
