/** The expiry loop against its specification: popping the expired prefix is filtering out everything expired. */
module Expiry {
  import opened Messages
  import opened Pipeline

  function Unexpired(queue: seq<Msg>, timeout: int, now: int): seq<Msg> {
    if queue == [] then []
    else (if Expired(queue[0].info, timeout, now) then [] else [queue[0]]) + Unexpired(queue[1..], timeout, now)
  }

  ghost predicate Monotone(clock: Clock) {
    forall i: nat, j: nat :: i <= j ==> clock(i) <= clock(j)
  }

  /** Oldest first, and never checked before: what the queue of a master holds. */
  ghost predicate ByAge(queue: seq<Msg>) {
    && (forall i :: 0 <= i < |queue| ==> !queue[i].info.timeoutReached)
    && (forall i, j :: 0 <= i <= j < |queue| ==>
          queue[i].info.createTimeStamp <= queue[j].info.createTimeStamp)
  }

  lemma SuffixByAge(queue: seq<Msg>, n: nat)
    requires n <= |queue| && ByAge(queue)
    ensures ByAge(queue[n..])
  {
    var rest := queue[n..];
    forall i, j | 0 <= i <= j < |rest| ensures rest[i].info.createTimeStamp <= rest[j].info.createTimeStamp {
      assert rest[i] == queue[n + i] && rest[j] == queue[n + j];
    }
  }

  lemma {:induction false} NothingExpired(queue: seq<Msg>, timeout: int, now: int)
    requires forall i :: 0 <= i < |queue| ==> !Expired(queue[i].info, timeout, now)
    ensures Unexpired(queue, timeout, now) == queue
  {
    if queue != [] {
      NothingExpired(queue[1..], timeout, now);
    }
  }

  /** One iteration of the loop, and of the filter. */
  lemma OneIteration(queue: seq<Msg>, timeout: int, clock: Clock, k: nat, now: int)
    requires queue != [] && Expired(queue[0].info, timeout, clock(k)) && clock(k) <= now
    ensures var n, m := ExpiredCount(queue, timeout, clock, k), ExpiredCount(queue[1..], timeout, clock, k + 1);
            n == 1 + m && queue[n..] == queue[1..][m..]
    ensures Unexpired(queue, timeout, now) == Unexpired(queue[1..], timeout, now)
  {
  }

  /** Every message the loop pops is also late at any later time. */
  lemma {:induction false} PoppedIsLate(queue: seq<Msg>, timeout: int, clock: Clock, k: nat, n: nat, now: int)
    requires n == ExpiredCount(queue, timeout, clock, k)
    requires forall i: nat :: k <= i < k + n ==> clock(i) <= now
    ensures Unexpired(queue, timeout, now) == Unexpired(queue[n..], timeout, now)
    decreases n
  {
    if n == 0 {
      assert queue[0..] == queue;
    } else {
      OneIteration(queue, timeout, clock, k, now);
      PoppedIsLate(queue[1..], timeout, clock, k + 1, n - 1, now);
    }
  }

  lemma Later(clock: Clock, i: nat, j: nat)
    requires Monotone(clock) && i <= j
    ensures clock(i) <= clock(j)
  {
  }

  /** On a queue ordered by creation time and a clock that never goes back, the loop keeps exactly the messages that are
      unexpired at its last check, although every iteration reads the clock anew. */
  lemma LoopIsFilter(queue: seq<Msg>, timeout: int, clock: Clock, k: nat)
    requires ByAge(queue) && Monotone(clock)
    ensures var n := ExpiredCount(queue, timeout, clock, k);
            queue[n..] == Unexpired(queue, timeout, clock(k + n))
  {
    var n := ExpiredCount(queue, timeout, clock, k);
    forall i: nat | k <= i < k + n ensures clock(i) <= clock(k + n) {
      Later(clock, i, k + n);
    }
    PoppedIsLate(queue, timeout, clock, k, n, clock(k + n));
    var live := queue[n..];
    forall i | 0 <= i < |live| ensures !Expired(live[i].info, timeout, clock(k + n)) {
      assert live[i] == queue[n + i] && live[0] == queue[n];
    }
    NothingExpired(live, timeout, clock(k + n));
  }

  /** For the pipeline: an expiry pass with an empty slot leaves the slot empty exactly when everything queued is late
      at the last check, and otherwise starts the earliest message that is not. */
  lemma AdvanceStartsEarliestUnexpired(p: Pipe, timeout: int, clock: Clock)
    requires p.current.None? && ByAge(p.queue) && Monotone(clock)
    ensures var q := Advance(p, timeout, clock);
            var last := clock(ExpiredCount(p.queue, timeout, clock, 0));
            var live := Unexpired(p.queue, timeout, last);
            if live == [] then q.current.None? && q.queue == []
            else q.current.Some? && q.current.value.msg == live[0] && q.queue == live[1..]
  {
    LoopIsFilter(p.queue, timeout, clock, 0);
    AdvanceShape(p, timeout, clock);
  }
}
