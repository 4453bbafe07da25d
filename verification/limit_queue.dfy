/** The bounded FIFO queue that sits under both masters (limit_queue.h). */
module LimitQueues {

  /** std::numeric_limits<size_t>::max() on a 64-bit target, the bound of a default-constructed queue. */
  const SIZE_MAX: nat := 0xFFFF_FFFF_FFFF_FFFF

  /** The contents after Push: the guard is `size > maxSize`, so a queue of exactly maxSize elements still grows. */
  function Pushed<T>(queue: seq<T>, maxSize: nat, val: T): seq<T> {
    (if |queue| > maxSize then queue[1..] else queue) + [val]
  }

  class LimitQueue<T> {
    var queue: seq<T>
    const maxSize: nat

    constructor (maxSize: nat)
      requires maxSize > 0
      ensures queue == [] && this.maxSize == maxSize
    {
      queue := [];
      this.maxSize := maxSize;
    }

    method Push(val: T)
      modifies this
      ensures queue == Pushed(old(queue), maxSize, val)
    {
      if |queue| > maxSize {
        queue := queue[1..];
      }
      queue := queue + [val];
    }

    method Pop()
      requires queue != []
      modifies this
      ensures old(queue) == [old(queue)[0]] + queue
    {
      queue := queue[1..];
    }

    function Front(): T
      requires queue != []
      reads this
    {
      queue[0]
    }

    predicate Empty()
      reads this
    {
      queue == []
    }
  }

  datatype Operation<T> = Push(val: T) | Pop

  /** The queue, with everything that was ever pushed and the number of elements that have left it. */
  datatype History<T> = History(contents: seq<T>, pushed: seq<T>, gone: nat)

  /** One operation. Popping an empty queue is not allowed by the caller's contract of std::queue, and is skipped here. */
  function Apply<T>(h: History<T>, maxSize: nat, op: Operation<T>): History<T> {
    match op
    case Push(v) =>
      History(Pushed(h.contents, maxSize, v), h.pushed + [v], if |h.contents| > maxSize then h.gone + 1 else h.gone)
    case Pop =>
      if h.contents == [] then h else History(h.contents[1..], h.pushed, h.gone + 1)
  }

  function Replay<T>(maxSize: nat, ops: seq<Operation<T>>): History<T> {
    if ops == [] then History([], [], 0)
    else Apply(Replay(maxSize, ops[..|ops| - 1]), maxSize, ops[|ops| - 1])
  }

  /** After any sequence of operations the contents are a contiguous suffix of all pushes: elements leave oldest first.
      The size is bounded by maxSize + 1, not by maxSize. */
  lemma {:induction false} Window<T>(maxSize: nat, ops: seq<Operation<T>>)
    ensures var h := Replay(maxSize, ops);
            h.gone <= |h.pushed| && h.contents == h.pushed[h.gone..] && |h.contents| <= maxSize + 1
  {
    if ops != [] {
      Window(maxSize, ops[..|ops| - 1]);
    }
  }

  /** The size after the first n operations. */
  function SizeAfter<T>(maxSize: nat, ops: seq<Operation<T>>, n: nat): nat
    requires n <= |ops|
  {
    |Replay(maxSize, ops[..n]).contents|
  }

  lemma SizeStep<T>(maxSize: nat, ops: seq<Operation<T>>, n: nat)
    requires n < |ops| && SizeAfter(maxSize, ops, n) <= maxSize
    ensures SizeAfter(maxSize, ops, n + 1) <= maxSize <==> !(ops[n].Push? && SizeAfter(maxSize, ops, n) == maxSize)
  {
    assert ops[..n + 1][..n] == ops[..n];
  }

  /** Along a sequence of operations the size stays within maxSize if and only if no push meets a queue of exactly maxSize
      elements: the guard lets that push through without dropping anything. */
  lemma {:induction false} BoundHoldsIff<T>(maxSize: nat, ops: seq<Operation<T>>, end: nat)
    requires end <= |ops|
    ensures (forall n :: 0 <= n <= end ==> SizeAfter(maxSize, ops, n) <= maxSize) <==>
            forall n :: 0 <= n < end && ops[n].Push? ==> SizeAfter(maxSize, ops, n) != maxSize
  {
    if end == 0 {
      assert ops[..0] == [];
    } else {
      BoundHoldsIff(maxSize, ops, end - 1);
      if SizeAfter(maxSize, ops, end - 1) <= maxSize {
        SizeStep(maxSize, ops, end - 1);
      }
    }
  }

  function Pushes<T>(vals: seq<T>): (ops: seq<Operation<T>>)
    ensures |ops| == |vals|
  {
    seq(|vals|, i requires 0 <= i < |vals| => Push(vals[i]))
  }

  /** The bound is attained: pushing n values leaves exactly the last min(n, maxSize + 1) of them. */
  lemma {:induction false} WindowIsTight<T>(maxSize: nat, vals: seq<T>)
    ensures Replay(maxSize, Pushes(vals)).contents ==
            if |vals| <= maxSize + 1 then vals else vals[|vals| - maxSize - 1..]
  {
    if vals == [] {
    } else {
      var rest := vals[..|vals| - 1];
      assert Pushes(vals)[..|vals| - 1] == Pushes(rest);
      WindowIsTight(maxSize, rest);
    }
  }
}
