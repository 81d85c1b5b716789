/** The agent's event queue: a bounded buffer that drops the oldest event, and the flush that
    sends a batch and puts it back when the gateway does not take it. */
module EventQueue {
  import opened Basics

  const STATUS_RETRY: int := 3
  const STATUS_THROTTLE: int := 4

  /** How a sent batch fared: the status in the reply, or an error in between. */
  datatype Outcome = Reply(status: int) | Failed

  predicate GoesBack(o: Outcome) {
    o.Failed? || o.status == STATUS_RETRY || o.status == STATUS_THROTTLE
  }

  datatype Queue<T> = Queue(capacity: nat, items: seq<T>, dropped: nat)

  predicate Bounded<T>(q: Queue<T>) {
    1 <= q.capacity && |q.items| <= q.capacity
  }

  function Pushed<T>(q: Queue<T>, e: T): Queue<T> {
    if q.items != [] && |q.items| >= q.capacity then q.(items := q.items[1..] + [e], dropped := q.dropped + 1)
    else q.(items := q.items + [e])
  }

  /** How many queued events must go to make room for `n`. */
  function Excess<T>(q: Queue<T>, n: nat): nat {
    Max(0, |q.items| + n - q.capacity)
  }

  function Requeued<T>(q: Queue<T>, batch: seq<T>): Queue<T>
    requires |batch| <= q.capacity
  {
    if batch == [] then q
    else q.(items := batch + q.items[Excess(q, |batch|)..], dropped := q.dropped + Excess(q, |batch|))
  }

  /** The buffer after a flush, and the events that have left it for good. */
  function Flushed<T>(q: Queue<T>, batchSize: nat, outcome: Outcome): (Queue<T>, seq<T>) {
    var take := Min(batchSize, |q.items|);
    if GoesBack(outcome) then (q, []) else (q.(items := q.items[take..]), q.items[..take])
  }

  class RingBuffer<T> {
    const capacity: nat
    var items: seq<T>
    var dropped: nat

    ghost function Value(): Queue<T>
      reads this
    {
      Queue(capacity, items, dropped)
    }

    ghost predicate Valid()
      reads this
    {
      Bounded(Value())
    }

    constructor (size: nat)
      ensures Valid() && Value() == Queue(Max(size, 1), [], 0)
    {
      capacity := Max(size, 1);
      items, dropped := [], 0;
    }

    method Push(e: T)
      requires Valid()
      modifies this
      ensures Valid() && Value() == Pushed(old(Value()), e)
    {
      if |items| >= capacity {
        items := items[1..];
        dropped := dropped + 1;
      }
      items := items + [e];
    }

    method Drain(n: nat) returns (batch: seq<T>)
      requires Valid()
      modifies this
      ensures Valid() && batch + items == old(items) && |batch| == Min(n, |old(items)|) && dropped == old(dropped)
    {
      var take := Min(n, |items|);
      batch := items[..take];
      items := items[take..];
    }

    /** The loop ends because the batch fits: see `RequeueLoopEnds`. */
    method RequeueFront(batch: seq<T>)
      requires Valid() && |batch| <= capacity
      modifies this
      ensures Valid() && Value() == Requeued(old(Value()), batch)
    {
      if batch == [] {
        return;
      }
      ghost var before, gone := items, 0;
      while |items| + |batch| > capacity
        invariant 0 <= gone <= |before| && items == before[gone..] && dropped == old(dropped) + gone
        invariant gone <= Excess(old(Value()), |batch|)
        decreases |items|
      {
        items := items[1..];
        dropped := dropped + 1;
        gone := gone + 1;
      }
      assert gone == Excess(old(Value()), |batch|);
      items := batch + items;
    }

    /** Sends up to `batchSize` events. A batch that comes back is put where it was taken from,
        and then the buffer is exactly as before; `sent` is what the gateway was handed. */
    method Flush(batchSize: nat, outcome: Outcome) returns (sent: seq<T>, ok: bool)
      requires Valid()
      modifies this
      ensures Valid() && Value() == Flushed(old(Value()), batchSize, outcome).0
      ensures sent == old(items)[..Min(batchSize, |old(items)|)]
      ensures !ok <==> sent != [] && outcome.Failed?
    {
      sent := Drain(batchSize);
      if sent == [] {
        return sent, true;
      }
      var backup := sent;
      ok := !outcome.Failed?;
      if GoesBack(outcome) {
        RequeueFront(backup);
      }
    }
  }

  // ------------------------------------------------------------ when the re-queue loop ends

  /** One round of the loop: pops the oldest event, if there is one, and counts it as dropped. */
  function Round<T>(q: Queue<T>): Queue<T> {
    q.(items := if q.items == [] then [] else q.items[1..], dropped := q.dropped + 1)
  }

  function Rounds<T>(q: Queue<T>, n: nat): Queue<T> {
    if n == 0 then q else Round(Rounds(q, n - 1))
  }

  predicate TooFull<T>(q: Queue<T>, batch: seq<T>) {
    |q.items| + |batch| > q.capacity
  }

  lemma {:induction false} RoundsShape<T>(q: Queue<T>, n: nat)
    ensures Rounds(q, n) == q.(items := q.items[Min(n, |q.items|)..], dropped := q.dropped + n)
  {
    if n > 0 {
      RoundsShape(q, n - 1);
    }
  }

  /** The loop's guard fails after some round exactly when the batch fits into the buffer. It fails for
      the first time after `Excess` rounds, and the re-queued buffer is the one reached then with the
      batch in front. */
  lemma RequeueLoopEnds<T>(q: Queue<T>, batch: seq<T>)
    ensures (exists n :: !TooFull(Rounds(q, n), batch)) <==> |batch| <= q.capacity
    ensures |batch| <= q.capacity ==>
              var n := Excess(q, |batch|);
              && !TooFull(Rounds(q, n), batch)
              && (forall m :: 0 <= m < n ==> TooFull(Rounds(q, m), batch))
              && (batch != [] ==> Requeued(q, batch) == Rounds(q, n).(items := batch + Rounds(q, n).items))
  {
    hide Rounds;
    forall n: nat ensures Rounds(q, n) == q.(items := q.items[Min(n, |q.items|)..], dropped := q.dropped + n) {
      RoundsShape(q, n);
    }
    if |batch| <= q.capacity {
      assert !TooFull(Rounds(q, Excess(q, |batch|)), batch);
    }
  }

  // ------------------------------------------------------------ whole runs

  datatype Event<T> = Push(item: T) | Flush(batchSize: nat, outcome: Outcome)

  /** The buffer together with everything pushed so far and everything handed over for good. */
  datatype History<T> = History(queue: Queue<T>, pushed: seq<T>, settled: seq<T>)

  function Step<T>(h: History<T>, e: Event<T>): History<T> {
    match e
    case Push(item) => History(Pushed(h.queue, item), h.pushed + [item], h.settled)
    case Flush(batchSize, outcome) =>
      var (q, gone) := Flushed(h.queue, batchSize, outcome);
      History(q, h.pushed, h.settled + gone)
  }

  function Run<T>(h: History<T>, events: seq<Event<T>>): History<T> {
    if events == [] then h else Step(Run(h, events[..|events|-1]), events[|events|-1])
  }

  /** `a` is `b` with some elements left out. */
  ghost predicate Subsequence<T>(a: seq<T>, b: seq<T>)
    decreases |b|
  {
    || a == []
    || (b != [] && Subsequence(a, b[..|b|-1]))
    || (b != [] && a[|a|-1] == b[|b|-1] && Subsequence(a[..|a|-1], b[..|b|-1]))
  }

  /** Nothing is unaccounted for, and what is queued are the latest events, without a gap. */
  ghost predicate Accounted<T>(h: History<T>) {
    && Bounded(h.queue)
    && |h.pushed| == |h.queue.items| + h.queue.dropped + |h.settled|
    && h.queue.items == h.pushed[|h.pushed| - |h.queue.items|..]
    && Subsequence(h.settled, h.pushed[..|h.pushed| - |h.queue.items|])
  }

  lemma {:induction false} SubsequenceLonger<T>(a: seq<T>, b: seq<T>, c: seq<T>)
    requires Subsequence(a, b)
    ensures Subsequence(a, b + c)
    decreases |c|
  {
    if c == [] {
      assert b + c == b;
    } else {
      var n := |c| - 1;
      SubsequenceLonger(a, b, c[..n]);
      assert (b + c)[..|b| + n] == b + c[..n];
    }
  }

  lemma {:induction false} SubsequenceBoth<T>(a: seq<T>, b: seq<T>, c: seq<T>)
    requires Subsequence(a, b)
    ensures Subsequence(a + c, b + c)
    decreases |c|
  {
    if c == [] {
      assert b + c == b && a + c == a;
    } else {
      var n := |c| - 1;
      SubsequenceBoth(a, b, c[..n]);
      assert (b + c)[..|b| + n] == b + c[..n] && (a + c)[..|a| + n] == a + c[..n];
    }
  }

  lemma PushAccounted<T>(h: History<T>, item: T)
    requires Accounted(h)
    ensures Accounted(Step(h, Push(item)))
  {
    hide Subsequence;
    var r := Step(h, Push(item));
    var k, k' := |h.pushed| - |h.queue.items|, |r.pushed| - |r.queue.items|;
    assert r.pushed[..k'] == h.pushed[..k] + h.pushed[k..k'];
    SubsequenceLonger(h.settled, h.pushed[..k], h.pushed[k..k']);
  }

  lemma FlushAccounted<T>(h: History<T>, batchSize: nat, outcome: Outcome)
    requires Accounted(h)
    ensures Accounted(Step(h, Flush(batchSize, outcome)))
  {
    hide Subsequence;
    var r := Step(h, Flush(batchSize, outcome));
    if GoesBack(outcome) {
      assert h.settled + [] == h.settled;
    } else {
      var take, k := Min(batchSize, |h.queue.items|), |h.pushed| - |h.queue.items|;
      var gone := h.queue.items[..take];
      assert h.pushed[..k + take] == h.pushed[..k] + gone;
      SubsequenceBoth(h.settled, h.pushed[..k], gone);
      assert r.queue.items == h.pushed[k + take..];
    }
  }

  /** In every run, pushed = queued + dropped + settled, and the settled events followed by the queued
      ones are the pushed ones in order, with the dropped ones left out. */
  lemma {:induction false} NothingUnaccounted<T>(h: History<T>, events: seq<Event<T>>)
    requires Accounted(h)
    ensures var r := Run(h, events);
            Accounted(r) && Subsequence(r.settled + r.queue.items, r.pushed)
  {
    if events != [] {
      hide Accounted, Step, Subsequence;
      var front, e := Run(h, events[..|events|-1]), events[|events|-1];
      NothingUnaccounted(h, events[..|events|-1]);
      match e {
        case Push(item) => PushAccounted(front, item);
        case Flush(n, outcome) => FlushAccounted(front, n, outcome);
      }
    }
    Joined(Run(h, events));
  }

  lemma Joined<T>(h: History<T>)
    requires Accounted(h)
    ensures Subsequence(h.settled + h.queue.items, h.pushed)
  {
    hide Subsequence;
    var k := |h.pushed| - |h.queue.items|;
    SubsequenceBoth(h.settled, h.pushed[..k], h.queue.items);
    assert h.pushed == h.pushed[..k] + h.queue.items;
  }

  /** While every flush comes back and there is room, the queue only grows, by what is pushed. */
  lemma {:induction false} OutageKeepsEvents<T>(h: History<T>, events: seq<Event<T>>)
    requires forall i :: 0 <= i < |events| && events[i].Flush? ==> GoesBack(events[i].outcome)
    requires |h.queue.items| + |events| <= h.queue.capacity
    ensures var r := Run(h, events);
            && r.queue.dropped == h.queue.dropped && r.settled == h.settled && r.queue.capacity == h.queue.capacity
            && h.pushed <= r.pushed && |r.pushed| <= |h.pushed| + |events|
            && r.queue.items == h.queue.items + r.pushed[|h.pushed|..]
  {
    if events != [] {
      OutageKeepsEvents(h, events[..|events|-1]);
    }
  }

  // ------------------------------------------------------------ what goes back, and how much is dropped

  /** A batch stays queued exactly when it failed or was answered with status 3 (retry) or 4 (throttle);
      answered otherwise, up to `batchSize` events leave from the front. */
  lemma OnlyRetryAndThrottleGoBack<T>(q: Queue<T>, batchSize: nat, status: int)
    ensures Flushed(q, batchSize, Failed) == (q, [])
    ensures var (r, gone) := Flushed(q, batchSize, Reply(status));
            && gone + r.items == q.items && r.dropped == q.dropped && r.capacity == q.capacity
            && |gone| == if status == 3 || status == 4 then 0
                         else if batchSize < |q.items| then batchSize else |q.items|
  {
  }

  /** A push drops one event, the oldest, and only when the buffer is full. */
  lemma PushDropsAtMostOne<T>(q: Queue<T>, e: T)
    requires Bounded(q)
    ensures var r := Pushed(q, e);
            && r.capacity == q.capacity && r.items != [] && r.items[|r.items|-1] == e
            && if |q.items| < q.capacity then r.items[..|r.items|-1] == q.items && r.dropped == q.dropped
               else r.items[..|r.items|-1] == q.items[1..] && r.dropped == q.dropped + 1
  {
  }
}
