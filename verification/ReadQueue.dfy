/** The per-client event queue of the CTR driver (ctr/driver/ctrdrvr-pci.c): an overwriting ring. */
module ReadQueue {

  const QUEUE_SIZE: nat := 64

  /** The bounded sequence the ring refines, with what happened since the last flush. */
  datatype Queue<E> = Queue(live: seq<E>, missed: nat, enqueued: seq<E>, taken: nat, dropped: nat, reported: nat)
  {
    /** The entries are the last events enqueued, in order; every event was read, is live or was dropped;
        and `Missed`, an unsigned short, counts the drops not yet reported. */
    ghost predicate Valid() {
      && |live| <= QUEUE_SIZE && |live| <= |enqueued|
      && live == enqueued[|enqueued| - |live|..]
      && |enqueued| == taken + |live| + dropped
      && reported <= dropped && missed == (dropped - reported) % 65536
    }
  }

  function Empty<E>(): Queue<E> {
    Queue([], 0, [], 0, 0, 0)
  }

  function Put<E>(q: Queue<E>, e: E): Queue<E> {
    if |q.live| < QUEUE_SIZE then q.(live := q.live + [e], enqueued := q.enqueued + [e])
    else q.(live := q.live[1..] + [e], enqueued := q.enqueued + [e], missed := (q.missed + 1) % 65536, dropped := q.dropped + 1)
  }

  function Get<E>(q: Queue<E>): Queue<E>
    requires q.live != []
  {
    q.(live := q.live[1..], taken := q.taken + 1)
  }

  /** `CtrDrvrGET_QUEUE_OVERFLOW`: what it reads, it clears. */
  function Report<E>(q: Queue<E>): Queue<E> {
    q.(missed := 0, reported := q.dropped)
  }

  lemma PutValid<E>(q: Queue<E>, e: E)
    requires q.Valid()
    ensures Put(q, e).Valid()
  {
    OneMoreMissed(q.dropped - q.reported);
  }

  lemma OneMoreMissed(n: nat)
    ensures (n % 65536 + 1) % 65536 == (n + 1) % 65536
  {
  }

  lemma ReportValid<E>(q: Queue<E>)
    requires q.Valid()
    ensures Report(q).Valid()
  {
  }

  lemma GetValid<E>(q: Queue<E>)
    requires q.Valid() && q.live != []
    ensures Get(q).Valid()
    ensures q.live[0] == q.enqueued[q.taken + q.dropped]
  {
  }

  datatype Op<E> = Enqueue(event: E) | Dequeue | ReadMissed | Flush

  function Step<E>(q: Queue<E>, op: Op<E>): Queue<E> {
    match op
    case Enqueue(e) => Put(q, e)
    case Dequeue => if q.live == [] then q else Get(q)
    case ReadMissed => Report(q)
    case Flush => Empty()
  }

  lemma StepValid<E>(q: Queue<E>, op: Op<E>)
    requires q.Valid()
    ensures Step(q, op).Valid()
    ensures Step(q, op).enqueued
            == match op case Enqueue(e) => q.enqueued + [e] case Flush => [] case _ => q.enqueued
  {
    match op
    case Enqueue(e) => PutValid(q, e);
    case Dequeue => if q.live != [] { GetValid(q); }
    case ReadMissed => ReportValid(q);
    case Flush =>
  }

  function Run<E>(q: Queue<E>, ops: seq<Op<E>>): Queue<E> {
    if ops == [] then q else Step(Run(q, ops[..|ops| - 1]), ops[|ops| - 1])
  }

  /** The events enqueued since the last flush. */
  function Since<E>(ops: seq<Op<E>>): seq<E> {
    if ops == [] then []
    else match ops[|ops| - 1]
         case Enqueue(e) => Since(ops[..|ops| - 1]) + [e]
         case Flush => []
         case _ => Since(ops[..|ops| - 1])
  }

  /** The events enqueued on a full queue since `Missed` was last read, or the queue flushed. */
  function Overwriting<E>(ops: seq<Op<E>>): nat {
    if ops == [] then 0
    else match ops[|ops| - 1]
         case Enqueue(_) =>
           Overwriting(ops[..|ops| - 1]) + if |Run(Empty(), ops[..|ops| - 1]).live| == QUEUE_SIZE then 1 else 0
         case Dequeue => Overwriting(ops[..|ops| - 1])
         case _ => 0
  }

  /** What a reader is handed, oldest first. */
  function Handed<E>(q: Queue<E>, ops: seq<Op<E>>): seq<E> {
    if ops == [] then []
    else
      var before := Run(q, ops[..|ops| - 1]);
      Handed(q, ops[..|ops| - 1]) + if ops[|ops| - 1].Dequeue? && before.live != [] then [before.live[0]] else []
  }

  /** Over every run from an empty queue: the live entries are exactly the last Size events enqueued since
      the last flush, and those number the events read, live and dropped; `Missed` is the number of those
      that overwrote another since it was last read, modulo 2^16. */
  lemma {:induction false} LastEvents<E>(ops: seq<Op<E>>)
    ensures var q := Run(Empty(), ops);
            && q.Valid() && q.enqueued == Since(ops)
            && q.live == Since(ops)[|Since(ops)| - |q.live|..]
            && |Since(ops)| == q.taken + |q.live| + q.dropped
            && q.missed == Overwriting(ops) % 65536
  {
    hide Put, Get;
    if ops != [] {
      LastEvents(ops[..|ops| - 1]);
      StepValid(Run(Empty(), ops[..|ops| - 1]), ops[|ops| - 1]);
    }
    MissedIs(ops);
  }

  lemma {:induction false} MissedIs<E>(ops: seq<Op<E>>)
    ensures var q := Run(Empty(), ops); q.Valid() && q.dropped - q.reported == Overwriting(ops)
  {
    if ops != [] {
      MissedIs(ops[..|ops| - 1]);
      StepValid(Run(Empty(), ops[..|ops| - 1]), ops[|ops| - 1]);
    }
  }

  predicate NeverFlushed<E>(ops: seq<Op<E>>) {
    forall i :: 0 <= i < |ops| ==> !ops[i].Flush?
  }

  /** With no flush and no drop, what the reader was handed followed by what is live is what was enqueued. */
  lemma {:induction false} InOrder<E>(ops: seq<Op<E>>)
    requires NeverFlushed(ops) && Run(Empty(), ops).dropped == 0
    ensures Since(ops) == Handed(Empty(), ops) + Run(Empty(), ops).live
  {
    hide Step;
    if ops != [] {
      var rest, op := ops[..|ops| - 1], ops[|ops| - 1];
      assert forall i :: 0 <= i < |rest| ==> rest[i] == ops[i];
      OneInOrder(Run(Empty(), rest), op, Since(rest), Handed(Empty(), rest));
      InOrder(rest);
    }
  }

  lemma OneInOrder<E>(q: Queue<E>, op: Op<E>, since: seq<E>, handed: seq<E>)
    requires !op.Flush?
    ensures q.dropped <= Step(q, op).dropped
    ensures since == handed + q.live && Step(q, op).dropped == q.dropped ==>
              (if op.Enqueue? then since + [op.event] else since)
              == handed + (if op.Dequeue? && q.live != [] then [q.live[0]] else []) + Step(q, op).live
  {
    if op.Dequeue? && q.live != [] {
      assert q.live == [q.live[0]] + Step(q, op).live;
    }
  }

  /** The place of live entry i. */
  function Slot(rdPntr: nat, i: nat): (s: nat)
    requires rdPntr < QUEUE_SIZE && i <= QUEUE_SIZE
    ensures s == if rdPntr + i < QUEUE_SIZE then rdPntr + i else rdPntr + i - QUEUE_SIZE
  {
    (rdPntr + i) % QUEUE_SIZE
  }

  lemma SlotsDiffer(rdPntr: nat, i: nat, j: nat)
    requires rdPntr < QUEUE_SIZE && i < j <= QUEUE_SIZE
    ensures Slot(rdPntr, i) == Slot(rdPntr, j) <==> i == 0 && j == QUEUE_SIZE
  {
  }

  lemma SlotNext(rdPntr: nat, i: nat)
    requires rdPntr < QUEUE_SIZE && i <= QUEUE_SIZE
    ensures i < QUEUE_SIZE ==> Next(Slot(rdPntr, i)) == Slot(rdPntr, i + 1) == Slot(Next(rdPntr), i)
    ensures i == QUEUE_SIZE ==> Slot(rdPntr, i) == rdPntr && Next(rdPntr) == Slot(Next(rdPntr), i)
  {
  }

  function Next(pntr: nat): (r: nat)
    requires pntr < QUEUE_SIZE
    ensures r == if pntr + 1 < QUEUE_SIZE then pntr + 1 else 0
  {
    (pntr + 1) % QUEUE_SIZE
  }

  lemma QueueMissed<E>(q: Queue<E>)
    requires q.Valid()
    ensures q.missed == (q.dropped - q.reported) % 65536
  {
  }

  /** `CtrDrvrQueue`. */
  class Ring<E> {
    const entries: array<E>
    var size: nat
    var missed: nat
    var wrPntr: nat
    var rdPntr: nat
    ghost var queue: Queue<E>

    ghost predicate Valid()
      reads this, entries
    {
      && entries.Length == QUEUE_SIZE && rdPntr < QUEUE_SIZE && size <= QUEUE_SIZE
      && wrPntr == Slot(rdPntr, size)
      && queue.Valid() && |queue.live| == size && missed == queue.missed
      && forall i :: 0 <= i < size ==> entries[Slot(rdPntr, i)] == queue.live[i]
    }

    constructor (filler: E)
      ensures Valid() && queue == Empty() && fresh(entries)
    {
      entries := new E[QUEUE_SIZE](_ => filler);
      size, missed, wrPntr, rdPntr := 0, 0, 0, 0;
      queue := Empty();
    }

    /** The result says whether the semaphore is to be signalled. */
    method Enqueue(e: E) returns (signal: bool)
      requires Valid()
      modifies this, entries
      ensures Valid() && queue == Put(old(queue), e) && signal == (old(size) < QUEUE_SIZE)
    {
      hide Slot, Next, Queue.Valid;
      PutValid(queue, e);
      ghost var rd, n := rdPntr, size;
      forall i | 0 <= i < n
        ensures Slot(rd, i) != wrPntr || (n == QUEUE_SIZE && i == 0)
      {
        SlotsDiffer(rd, i, n);
      }
      SlotNext(rd, n);
      entries[wrPntr] := e;
      wrPntr := Next(wrPntr);
      signal := size < QUEUE_SIZE;
      if signal {
        size := size + 1;
      } else {
        missed := (missed + 1) % 65536;
        rdPntr := Next(rdPntr);
      }
      queue := Put(queue, e);
      forall i | 0 <= i < size
        ensures entries[Slot(rdPntr, i)] == queue.live[i]
      {
        SlotNext(rd, i);
      }
    }

    method Dequeue() returns (e: E)
      requires Valid() && size > 0
      modifies this
      ensures Valid() && e == old(queue).live[0] && queue == Get(old(queue))
    {
      hide Slot, Next, Queue.Valid;
      GetValid(queue);
      e := entries[rdPntr];
      rdPntr := Next(rdPntr);
      size := size - 1;
      queue := Get(queue);
    }

    /** The number of events missed since the last call. */
    method ReadMissed() returns (n: nat)
      requires Valid()
      modifies this
      ensures Valid() && queue == Report(old(queue))
      ensures n == (old(queue).dropped - old(queue).reported) % 65536
    {
      hide Queue.Valid, Slot, Next;
      QueueMissed(queue);
      ReportValid(queue);
      n := missed;
      missed := 0;
      queue := Report(queue);
      assert queue.live == old(queue.live) && queue.missed == 0;
      assert forall i :: 0 <= i < size ==> entries[Slot(rdPntr, i)] == old(entries[Slot(rdPntr, i)]);
    }

    method Flush()
      requires Valid()
      modifies this
      ensures Valid() && queue == Empty()
    {
      size := 0;
      missed := 0;
      wrPntr := 0;
      rdPntr := 0;
      queue := Empty();
    }
  }
}
