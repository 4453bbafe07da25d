/** What a master asks of asio: the operations pending on its serial port or socket, and on its timer. */
module Ports {
  import opened Messages
  import opened PendingIo

  /** A serial port or socket together with the timer of its actor. */
  class Port {
    ghost var io: Io
    ghost var connects: nat

    constructor ()
      ensures io == NO_IO && connects == 0
    {
      io, connects := NO_IO, 0;
    }

    method AsyncConnect()
      modifies this
      ensures io == old(io) && connects == old(connects) + 1
    {
      connects := connects + 1;
    }

    method EndConnect()
      requires connects > 0
      modifies this
      ensures io == old(io) && connects == old(connects) - 1
    {
      connects := connects - 1;
    }

    method AsyncWrite(buffer: ModbusBuffer)
      modifies this
      ensures io == StartWrite(old(io), buffer.handle) && connects == old(connects)
    {
      io := StartWrite(io, buffer.handle);
    }

    /** expires_after and async_wait on the timer, then async_read on the port. */
    method AsyncWaitAndRead(buffer: ModbusBuffer)
      modifies this
      ensures io == StartWaitAndRead(old(io), buffer.handle) && connects == old(connects)
    {
      io := StartWaitAndRead(io, buffer.handle);
    }

    method EndWrite(ghost i: nat)
      requires i < |io.writing|
      modifies this
      ensures io == PendingIo.EndWrite(old(io), i) && connects == old(connects)
    {
      io := PendingIo.EndWrite(io, i);
    }

    method EndRead(ghost i: nat)
      requires i < |io.reading|
      modifies this
      ensures io == PendingIo.EndRead(old(io), i) && connects == old(connects)
    {
      io := PendingIo.EndRead(io, i);
    }

    /** The timer handler of either master: on expiry it cancels whatever is pending on the port. */
    method EndWait(ghost wait: nat, ec: Ec, cancelled: bool)
      modifies this
      ensures io == PendingIo.EndWait(old(io), wait, ec, cancelled) && connects == old(connects)
    {
      io := io.(waits := io.waits - {wait});
      if !ec.Ok? {
        if !ec.Aborted? {
          io := io.(failed := io.failed + {wait});
        }
        return;
      }
      if cancelled {
        Close();
        io := io.(fired := io.fired + {wait});
      } else {
        io := io.(failed := io.failed + {wait});
      }
    }

    method CancelTimer()
      modifies this
      ensures io == PendingIo.CancelTimer(old(io)) && connects == old(connects)
    {
      io := PendingIo.CancelTimer(io);
    }

    /** Cancelling or closing the port. */
    method Close()
      modifies this
      ensures io == CancelPort(old(io)) && connects == old(connects)
    {
      io := CancelPort(io);
    }
  }
}
