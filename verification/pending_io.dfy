/** The asynchronous operations a master has started and whose completion handlers have not run yet. The completions are
    inputs; this module only keeps what they may be. */
module PendingIo {
  import opened Messages

  /** A write of the buffer of the request in the slot. `cancelled`: the port was cancelled while it was pending. */
  datatype Write = Write(buffer: nat, cancelled: bool)

  /** A read into its own new buffer, started together with timer wait number `generation`. */
  datatype Read = Read(buffer: nat, generation: nat, cancelled: bool)

  /** `waits` maps each pending timer wait to whether the timer was cancelled since it started. A cancelled wait can still
      complete without an error: its handler may have been queued before. `fired` are the waits whose expiry handler ran and
      cancelled the port; `failed` those that ended in a timer error, or whose handler could not cancel the port. */
  datatype Io = Io(
    writing: seq<Write>,
    reading: seq<Read>,
    waits: map<nat, bool>,
    generations: nat,
    fired: set<nat>,
    failed: set<nat>)

  const NO_IO := Io([], [], map[], 0, {}, {})

  function Remove<T>(s: seq<T>, i: nat): seq<T>
    requires i < |s|
  {
    s[..i] + s[i + 1..]
  }

  function Count(io: Io): nat {
    |io.writing| + |io.reading|
  }

  function StartWrite(io: Io, buffer: nat): Io {
    io.(writing := io.writing + [Write(buffer, false)])
  }

  function EndWrite(io: Io, i: nat): Io
    requires i < |io.writing|
  {
    io.(writing := Remove(io.writing, i))
  }

  /** timer_.cancel() */
  function CancelTimer(io: Io): Io {
    io.(waits := map g | g in io.waits :: true)
  }

  /** StartWaitTask, whose expires_after cancels the waits of before, and StartReadTask. */
  function StartWaitAndRead(io: Io, buffer: nat): Io {
    var g := io.generations;
    var c := CancelTimer(io);
    c.(waits := c.waits[g := false], generations := g + 1, reading := c.reading + [Read(buffer, g, false)])
  }

  function EndRead(io: Io, i: nat): Io
    requires i < |io.reading|
  {
    io.(reading := Remove(io.reading, i))
  }

  function CancelWrites(writing: seq<Write>): (r: seq<Write>)
    ensures |r| == |writing|
  {
    seq(|writing|, i requires 0 <= i < |writing| => writing[i].(cancelled := true))
  }

  function CancelReads(reading: seq<Read>): (r: seq<Read>)
    ensures |r| == |reading|
  {
    seq(|reading|, i requires 0 <= i < |reading| => reading[i].(cancelled := true))
  }

  /** Cancelling or closing the port cancels every operation pending on it. */
  function CancelPort(io: Io): Io {
    io.(writing := CancelWrites(io.writing), reading := CancelReads(io.reading))
  }

  /** The timer handler: on expiry it cancels whatever is pending on the port, which may not be its own request's. */
  function EndWait(io: Io, g: nat, ec: Ec, cancelled: bool): Io {
    var rest := io.(waits := io.waits - {g});
    match ec
    case Aborted => rest
    case Failed => rest.(failed := io.failed + {g})
    case Ok =>
      if cancelled then CancelPort(rest).(fired := io.fired + {g})
      else rest.(failed := io.failed + {g})
  }

  /** Wait numbers are never used twice. */
  ghost predicate Numbered(io: Io) {
    && (forall g :: g in io.waits ==> g < io.generations)
    && (forall g :: g in io.fired || g in io.failed ==> g < io.generations)
    && (forall i :: 0 <= i < |io.reading| ==> io.reading[i].generation < io.generations)
  }

  /** Whenever a read is pending, its own timer wait is still pending and not cancelled, or its expiry handler has run and
      cancelled the read, or that wait ended in an error. */
  ghost predicate Covered(io: Io) {
    forall i :: 0 <= i < |io.reading| ==>
      var r := io.reading[i];
      || (r.generation in io.waits && !io.waits[r.generation])
      || (r.generation in io.fired && r.cancelled)
      || r.generation in io.failed
  }

  /** A pending timer wait has not been cancelled if and only if it belongs to the read that is pending. */
  ghost predicate TimerIsOwn(io: Io) {
    forall g :: g in io.waits ==> (!io.waits[g] <==> io.reading != [] && io.reading[0].generation == g)
  }

  /** One operation at a time, and its timer. */
  ghost predicate Sound(io: Io) {
    Count(io) <= 1 && Numbered(io) && Covered(io)
  }

  lemma StartWriteSound(io: Io, buffer: nat)
    requires Sound(io) && Count(io) == 0
    ensures Sound(StartWrite(io, buffer)) && Count(StartWrite(io, buffer)) == 1
  {
  }

  lemma EndWriteSound(io: Io, i: nat)
    requires Sound(io) && i < |io.writing|
    ensures Sound(EndWrite(io, i)) && Count(EndWrite(io, i)) == 0
  {
  }

  lemma StartWaitAndReadSound(io: Io, buffer: nat)
    requires Sound(io) && Count(io) == 0
    ensures Sound(StartWaitAndRead(io, buffer)) && Count(StartWaitAndRead(io, buffer)) == 1
    ensures StartWaitAndRead(io, buffer).writing == []
  {
  }

  lemma EndReadSound(io: Io, i: nat)
    requires Sound(io) && i < |io.reading|
    ensures Sound(EndRead(io, i)) && Count(EndRead(io, i)) == 0
    ensures Sound(CancelTimer(EndRead(io, i))) && Count(CancelTimer(EndRead(io, i))) == 0
  {
  }

  lemma EndWaitSound(io: Io, g: nat, ec: Ec, cancelled: bool)
    requires Sound(io) && g in io.waits && (ec.Aborted? ==> io.waits[g])
    ensures var t := EndWait(io, g, ec, cancelled);
            && Sound(t) && |t.writing| == |io.writing| && |t.reading| == |io.reading|
            && (io.writing != [] ==> t.writing[0].buffer == io.writing[0].buffer)
  {
  }
}
