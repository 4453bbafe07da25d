/** The values and objects that travel between the actors (modbus_message.h, modbus_message_info.h). */
module Messages {

  datatype Option<+T> = None | Some(value: T)

  /** exchange::ActorId */
  type ActorId = nat

  /** A transaction identifier is two bytes on the wire: section 3.1.3 of
      MODBUS Messaging on TCP/IP Implementation Guide V1.0b. */
  const ID_SPACE: int := 0x1_0000
  type TransactionId = x: int | 0 <= x < ID_SPACE

  /** ++id on a 16-bit unsigned counter. */
  function NextId(id: TransactionId): TransactionId {
    (id + 1) % ID_SPACE
  }

  /** Two counts give the same identifier if and only if they differ by a multiple of 2^16. */
  lemma CongruentIff(a: int, b: int)
    ensures a % ID_SPACE == b % ID_SPACE <==> (a - b) % ID_SPACE == 0
    ensures 0 <= a - b < ID_SPACE && (a - b) % ID_SPACE == 0 ==> a == b
  {
  }

  type Byte = x: int | 0 <= x < 0x100

  datatype FrameType = TCP | RTU | ASCII

  /** What the gateway can observe of a modbus::ModbusBuffer. The identifier is only meaningful in a TCP frame. */
  datatype Frame = Frame(frameType: FrameType, unitId: Byte, pdu: seq<Byte>, transactionId: TransactionId)

  /** The part of a frame that the gateway has to carry through every conversion. */
  datatype Payload = Payload(unitId: Byte, pdu: seq<Byte>)

  function PayloadOf(f: Frame): Payload {
    Payload(f.unitId, f.pdu)
  }

  /** ModbusMessageInfo, copied by value from a request to its response. `tag` is not in the program: it is the serial
      number of the accepted request and only serves to speak about which request a message stems from. */
  datatype Info = Info(
    createTimeStamp: int,
    timeoutReached: bool,
    sourceId: ActorId,
    transactionId: TransactionId,
    tag: nat)

  /** The value TimeoutReached returns: sticky, or the direct comparison. */
  predicate Expired(info: Info, timeout: int, now: int) {
    info.timeoutReached || now >= info.createTimeStamp + timeout
  }

  /** A message as the step machines see it: its info, and the identity of its buffer. */
  datatype Msg = Msg(info: Info, buffer: nat)

  /** The outcome of an asynchronous operation. */
  datatype Ec = Ok | Aborted | Failed

  /** modbus::ModbusBuffer. Byte layouts and checksums are not modelled: a conversion and Update keep the unit id and
      the PDU, and say nothing about the transaction id, which the callers set afterwards where it matters. */
  class ModbusBuffer {
    ghost const handle: nat
    var frame: Frame

    constructor (ghost handle: nat, frame: Frame)
      ensures this.handle == handle && this.frame == frame
    {
      this.handle := handle;
      this.frame := frame;
    }

    method ConvertTo(frameType: FrameType)
      modifies this
      ensures frame.frameType == frameType && PayloadOf(frame) == PayloadOf(old(frame))
    {
      frame := frame.(frameType := frameType);
    }

    method Update()
      modifies this
      ensures frame.frameType == old(frame.frameType) && PayloadOf(frame) == PayloadOf(old(frame))
    {
    }

    method SetTransactionId(id: TransactionId)
      modifies this
      ensures frame == old(frame).(transactionId := id)
    {
      frame := frame.(transactionId := id);
    }
  }

  /** ModbusMessage. The info is a value, except for the sticky flag that TimeoutReached updates in place. */
  class ModbusMessage {
    var info: Info
    const buffer: ModbusBuffer?

    constructor (info: Info, buffer: ModbusBuffer?)
      ensures this.info == info && this.buffer == buffer
    {
      this.info := info;
      this.buffer := buffer;
    }

    ghost function View(): Msg
      reads this
    {
      Msg(info, if buffer == null then 0 else buffer.handle)
    }

    method TimeoutReached(timeout: int, now: int) returns (reached: bool)
      modifies this
      ensures reached == Expired(old(info), timeout, now)
      ensures info == old(info).(timeoutReached := reached)
    {
      if info.timeoutReached {
        return true;
      }
      if now >= info.createTimeStamp + timeout {
        info := info.(timeoutReached := true);
      }
      return info.timeoutReached;
    }
  }

  /** The answers of successive TimeoutReached calls on one message, one clock reading each. */
  function Checks(info: Info, timeout: int, readings: seq<int>): seq<bool>
    decreases |readings|
  {
    if readings == [] then []
    else
      var reached := Expired(info, timeout, readings[0]);
      [reached] + Checks(info.(timeoutReached := reached), timeout, readings[1..])
  }

  /** The flag makes an answer stay: the i-th call says yes exactly when some reading so far was late. */
  lemma {:induction false} ChecksAreSticky(info: Info, timeout: int, readings: seq<int>)
    ensures |Checks(info, timeout, readings)| == |readings|
    ensures forall i :: 0 <= i < |readings| ==>
              (Checks(info, timeout, readings)[i] <==>
               info.timeoutReached || exists j :: 0 <= j <= i && readings[j] >= info.createTimeStamp + timeout)
    decreases |readings|
  {
    if readings != [] {
      var next := info.(timeoutReached := Expired(info, timeout, readings[0]));
      var rest := readings[1..];
      ChecksAreSticky(next, timeout, rest);
      forall i | 0 <= i < |readings|
        ensures Checks(info, timeout, readings)[i] <==>
                info.timeoutReached || exists j :: 0 <= j <= i && readings[j] >= info.createTimeStamp + timeout
      {
        if i > 0 {
          assert Checks(info, timeout, readings)[i] == Checks(next, timeout, rest)[i - 1];
          if j :| 0 <= j <= i && readings[j] >= info.createTimeStamp + timeout {
            if j > 0 {
              assert rest[j - 1] == readings[j];
            }
          }
          if j :| 0 <= j <= i - 1 && rest[j] >= info.createTimeStamp + timeout {
            assert readings[j + 1] == rest[j];
          }
        }
      }
    }
  }

  /** With one timeout and a clock that never goes back, the sticky answer is the direct comparison. */
  lemma StickyAgreesWithClock(info: Info, timeout: int, readings: seq<int>)
    requires !info.timeoutReached
    requires forall i, j :: 0 <= i <= j < |readings| ==> readings[i] <= readings[j]
    ensures |Checks(info, timeout, readings)| == |readings|
    ensures forall i :: 0 <= i < |readings| ==>
              (Checks(info, timeout, readings)[i] <==> readings[i] >= info.createTimeStamp + timeout)
  {
    ChecksAreSticky(info, timeout, readings);
  }
}
