/** One client of the CTR driver (ctr/driver/ctrdrvr-pci.c): its queue, its semaphore, its read time-out
    and its one reader, in every interleaving of interrupts, writes, timer callbacks and signals. */
module ReadProtocol {
  import Q = ReadQueue
  import S = SemSpec

  /** `disable`/`restore`: free, or held between filling an entry and signalling, or held between
      emptying the queue and resetting the semaphore. */
  datatype Lock = Free | Filled | Cleared

  /** Where the reader is in `CtrDrvrRead`. */
  datatype Place =
    | Idle
    | Starting              // past the flush
    | Storing               // `timeout` has returned, its result is not yet in Timer
    | Entering              // about to wait
    | Blocked(ticket: S.Ticket)
    | Holding               // `swait` succeeded
    | Cancelling            // found Timer set
    | Passed                // past the time-out check
    | Taking                // found the queue not empty
    | Leaving               // interrupted

  datatype Client<E> = Client(
    queue: Q.Queue<E>, sem: S.World, lock: Lock, place: Place,
    timed: bool,        // Timeout is not zero
    timer: bool,        // Timer is not zero
    outstanding: nat,   // timers whose callback may still run
    firing: bool,       // a callback has cleared Timer and not yet reset the semaphore
    byReset: bool,      // the reader was last woken by a reset, not by an event
    raced: bool,        // since the last flush a callback began while the reader was storing a timer's number
    empty: bool,        // since the last flush a read passed the time-out check and found nothing
    got: seq<E>)

  datatype Act<E> =
    | Fill(event: E) | Post                      // the interrupt routine, or `CtrDrvrWrite`
    | Begin(queueOff: bool) | FlushEnd | Register(ok: bool) | Store | Wait(pending: bool) | Wake(pending: bool)
    | Check | Cancel | Look | Take | Leave       // the reader
    | Fire | Fired                               // a timer callback
    | Report                                     // `CtrDrvrGET_QUEUE_OVERFLOW`

  function Signalled(w: S.World): S.World {
    S.Up(w)
  }

  function WasReset(w: S.World): S.World {
    S.Step(w, S.Reset)
  }

  /** One step; a step that cannot happen here changes nothing. */
  function Step<E>(c: Client<E>, a: Act<E>): Client<E> {
    match a
    case Fill(e) =>
      if !c.lock.Free? then c
      else c.(queue := Q.Put(c.queue, e), lock := if |c.queue.live| < Q.QUEUE_SIZE then Filled else Free)
    case Post => if c.lock.Filled? then c.(sem := Signalled(c.sem), lock := Free) else c
    case Begin(queueOff) =>
      if !c.place.Idle? || (queueOff && !c.lock.Free?) then c
      else if queueOff then c.(queue := Q.Empty(), lock := Cleared, place := Starting, byReset := false)
      else c.(place := Starting, byReset := false)
    case FlushEnd => if c.lock.Cleared? then c.(sem := WasReset(c.sem), lock := Free, raced := false, empty := false) else c
    case Register(ok) =>
      if !c.place.Starting? || c.lock.Cleared? then c
      else if !c.timed then c.(place := Entering)
      else if c.firing then c  // `timeout` and the callback share a mutex
      else c.(place := Storing, outstanding := if ok then c.outstanding + 1 else c.outstanding)
    case Store => if c.place.Storing? then c.(place := Entering, timer := true) else c
    case Wait(pending) =>
      if !c.place.Entering? then c
      else c.(sem := S.Step(c.sem, S.Down(S.Interruptible, pending, 1)),
              place := if c.sem.count > 0 then Holding else if pending then Leaving else Blocked(c.sem.Issued()))
    case Wake(pending) =>
      if !c.place.Blocked? then c
      else c.(sem := S.Step(c.sem, S.Recheck(c.place.ticket, pending, 1)),
              place := if c.place.ticket in c.sem.granted then Holding else if pending then Leaving else c.place)
    case Check =>
      if !c.place.Holding? then c
      else c.(place := if !c.timed then Passed else if c.timer then Cancelling else Idle)
    case Cancel => if c.place.Cancelling? then c.(timer := false, place := Passed) else c
    case Look =>
      if !c.place.Passed? then c
      else if c.queue.live == [] then c.(empty := true, place := Idle)
      else c.(place := Taking)
    case Take =>
      if !c.place.Taking? || !c.lock.Free? || c.queue.live == [] then c
      else c.(got := c.got + [c.queue.live[0]], queue := Q.Get(c.queue), place := Idle)
    case Leave => if c.place.Leaving? then c.(timer := false, place := Idle) else c
    case Fire =>
      if c.outstanding == 0 || c.firing then c
      else c.(outstanding := c.outstanding - 1, firing := true, timer := false, raced := c.raced || c.place.Storing?)
    case Fired =>
      if !c.firing then c
      else c.(firing := false, sem := WasReset(c.sem), byReset := c.byReset || c.sem.list != [])
    case Report => c.(queue := Q.Report(c.queue))
  }

  /** `CtrDrvrOpen`. */
  function Open<E>(timed: bool): Client<E> {
    Client(Q.Empty(), S.Fresh(0), Free, Idle, timed, false, 0, false, false, false, false, [])
  }

  function Run<E>(c: Client<E>, acts: seq<Act<E>>): Client<E> {
    if acts == [] then c else Step(Run(c, acts[..|acts| - 1]), acts[|acts| - 1])
  }

  /** The reader has been given a token it has not yet used. */
  predicate Owns<E>(c: Client<E>) {
    c.place.Holding? || c.place.Cancelling? || c.place.Passed? || c.place.Taking?
    || (c.place.Blocked? && c.place.ticket in c.sem.granted)
  }

  /** The reader's token came with an event. */
  function Held<E>(c: Client<E>): nat {
    if Owns(c) && !c.byReset then 1 else 0
  }

  /** An entry filled and not yet signalled. */
  function Owed<E>(c: Client<E>): nat {
    if c.lock.Filled? then 1 else 0
  }

  /** The reader is the only task that waits. */
  ghost predicate OneWaiter<E>(c: Client<E>) {
    if c.place.Blocked? then
      && c.sem.Asleep(c.place.ticket) && c.sem.kinds[c.place.ticket] == S.Interruptible
      && c.sem.list == if c.place.ticket in c.sem.granted then [] else [c.place.ticket]
    else c.sem.list == []
  }

  /** Every token has its entry. */
  ghost predicate Backed<E>(c: Client<E>) {
    if c.lock.Cleared? then c.place.Starting? else !c.raced ==> c.sem.count + Held(c) + Owed(c) <= |c.queue.live|
  }

  /** A reset can only wake a reader whose Timer has been cleared. */
  ghost predicate TimerLaw<E>(c: Client<E>) {
    && (!c.timed ==> c.outstanding == 0 && !c.firing && !c.timer && !c.place.Storing?)
    && (c.byReset && Owns(c) ==> c.timed)
    && (c.byReset && c.place.Blocked? ==> Owns(c))
    && (c.byReset ==> !c.place.Starting? && !c.place.Storing? && !c.place.Entering?)
    && (c.place.Storing? && c.firing ==> c.raced)
    && (c.place.Idle? || c.place.Starting? || c.place.Passed? || c.place.Taking? ==> !c.timer)
    && (!c.raced ==>
          && (c.firing ==> !c.timer) && (c.byReset && Owns(c) ==> !c.timer)
          && (c.place.Cancelling? || c.place.Passed? || c.place.Taking? ==> !c.byReset)
          && !c.empty)
  }

  ghost predicate Valid<E>(c: Client<E>) {
    c.queue.Valid() && c.sem.Valid() && OneWaiter(c) && Backed(c) && TimerLaw(c)
  }

  // ----- what the steps keep -----

  lemma ResetGives(w: S.World)
    requires w.Valid()
    ensures var v := WasReset(w);
            && v.Valid() && v.count == 0 && v.list == [] && v.kinds == w.kinds && v.quit == w.quit && v.served == w.served
            && v.granted == w.granted + w.list
  {
    S.ResetValid(w);
  }

  lemma SignalGives(w: S.World)
    requires w.Valid()
    ensures var v := Signalled(w);
            && v.Valid() && v.kinds == w.kinds && v.quit == w.quit && v.served == w.served
            && if w.list == [] then v.count == w.count + 1 && v.list == [] && v.granted == w.granted
               else v.count == 0 && v.list == w.list[1..] && v.granted == w.granted + [w.list[0]]
  {
    S.UpValid(w);
  }

  lemma QueueSteps<E>(c: Client<E>, a: Act<E>)
    requires Valid(c) && (a.Fill? || a.Begin? || a.Take? || a.Look? || a.Report?)
    ensures Valid(Step(c, a))
  {
    hide S.World.Valid, Q.Queue.Valid;
    match a
    case Fill(e) => Q.PutValid(c.queue, e);
    case Take => if c.queue.live != [] { Q.GetValid(c.queue); }
    case Begin(_) => EmptyValid<E>();
    case Report => Q.ReportValid(c.queue);
    case Look =>
  }

  lemma EmptyValid<E>()
    ensures Q.Empty<E>().Valid()
  {
  }

  lemma SemSteps<E>(c: Client<E>, a: Act<E>)
    requires Valid(c) && (a.Post? || a.FlushEnd? || a.Fired?)
    ensures Valid(Step(c, a))
  {
    hide S.World.Valid, Q.Queue.Valid, Signalled, WasReset;
    SignalGives(c.sem);
    ResetGives(c.sem);
    CountOrWaiters(c.sem);
  }

  lemma CountOrWaiters(w: S.World)
    requires w.Valid()
    ensures w.count > 0 ==> w.list == []
    ensures forall t <- w.granted :: t < w.Issued()
    ensures forall t <- w.list :: t !in w.quit && t !in w.served && t !in w.granted && t < w.Issued()
    ensures w.Issued() !in w.quit && w.Issued() !in w.served && w.Issued() !in w.granted
  {
  }

  lemma WaitGives(w: S.World, pending: bool)
    requires w.Valid()
    ensures var v := S.Step(w, S.Down(S.Interruptible, pending, 1));
            && v.Valid() && v.granted == w.granted && v.served == w.served
            && if w.count > 0 then v == w.(count := w.count - 1, atOnce := w.atOnce + 1)
               else && v.count == 0 && v.kinds == w.kinds + [S.Interruptible]
                    && (pending ==> v.list == w.list) && (!pending ==> v.list == w.list + [w.Issued()] && v.quit == w.quit)
  {
    S.StepValid(w, S.Down(S.Interruptible, pending, 1));
  }

  lemma WaitSteps<E>(c: Client<E>, pending: bool)
    requires Valid(c)
    ensures Valid(Step(c, Wait(pending)))
  {
    hide S.World.Valid, Q.Queue.Valid, S.Step;
    CountOrWaiters(c.sem);
    WaitGives(c.sem, pending);
  }

  lemma WakeGives(w: S.World, t: S.Ticket, pending: bool)
    requires w.Valid() && w.Asleep(t) && w.kinds[t] == S.Interruptible
    requires w.list == if t in w.granted then [] else [t]
    ensures var v := S.Step(w, S.Recheck(t, pending, 1));
            && v.Valid() && v.granted == w.granted && v.count == w.count && v.kinds == w.kinds
            && (v.list == if t in w.granted || pending then [] else [t])
            && (t !in w.granted && !pending ==> v == w)
  {
    S.StepValid(w, S.Recheck(t, pending, 1));
  }

  lemma WakeSteps<E>(c: Client<E>, pending: bool)
    requires Valid(c)
    ensures Valid(Step(c, Wake(pending)))
  {
    hide S.World.Valid, Q.Queue.Valid, S.Step;
    CountOrWaiters(c.sem);
    if c.place.Blocked? {
      WakeGives(c.sem, c.place.ticket, pending);
    }
  }

  lemma TimerSteps<E>(c: Client<E>, a: Act<E>)
    requires Valid(c) && (a.Register? || a.Store? || a.Check? || a.Cancel? || a.Leave? || a.Fire?)
    ensures Valid(Step(c, a))
  {
    hide S.World.Valid, Q.Queue.Valid;
  }

  lemma StepValid<E>(c: Client<E>, a: Act<E>)
    requires Valid(c)
    ensures Valid(Step(c, a))
  {
    hide Valid, Step;
    match a
    case Fill(_) => QueueSteps(c, a);
    case Begin(_) => QueueSteps(c, a);
    case Take => QueueSteps(c, a);
    case Look => QueueSteps(c, a);
    case Report => QueueSteps(c, a);
    case Post => SemSteps(c, a);
    case FlushEnd => SemSteps(c, a);
    case Fired => SemSteps(c, a);
    case Wait(pending) => WaitSteps(c, pending);
    case Wake(pending) => WakeSteps(c, pending);
    case _ => TimerSteps(c, a);
  }

  lemma {:induction false} RunValid<E>(timed: bool, acts: seq<Act<E>>)
    ensures Valid(Run(Open(timed), acts))
  {
    hide Valid, Step;
    if acts == [] {
      OpenValid<E>(timed);
    } else {
      RunValid(timed, acts[..|acts| - 1]);
      StepValid(Run(Open(timed), acts[..|acts| - 1]), acts[|acts| - 1]);
    }
  }

  lemma OpenValid<E>(timed: bool)
    ensures Valid(Open<E>(timed))
  {
    hide S.World.Valid, Q.Queue.Valid;
    S.FreshValid(0);
    EmptyValid<E>();
  }

  /** The main result: outside the flush, the semaphore's tokens and the event token the reader holds never
      outnumber the queue's entries; so a read that gets past the time-out check finds an entry, unless,
      since the last read that flushed, a timer callback began after `timeout` returned and before its result
      was stored. */
  lemma ReadsFindEntries<E>(timed: bool, acts: seq<Act<E>>)
    ensures var c := Run(Open(timed), acts);
            && (!c.raced && !c.lock.Cleared? ==> c.sem.count + Held(c) <= |c.queue.live|)
            && (!c.raced && (c.place.Passed? || c.place.Taking?) ==> c.queue.live != [])
            && (!c.raced ==> !c.empty)
  {
    RunValid(timed, acts);
  }

  /** With no time-out there is no such callback, so no exception. */
  lemma UntimedNeverRaces<E>(acts: seq<Act<E>>)
    ensures var c := Run(Open(false), acts); !c.raced && !c.empty && !c.timed
  {
    RunValid(false, acts);
    UntimedStays(acts);
  }

  lemma UntimedStep<E>(c: Client<E>, a: Act<E>)
    requires TimerLaw(c) && !c.timed && !c.raced
    ensures !Step(c, a).raced && !Step(c, a).timed
  {
    hide Signalled, WasReset, S.Step;
  }

  lemma {:induction false} UntimedStays<E>(acts: seq<Act<E>>)
    ensures var c := Run(Open(false), acts); !c.raced && !c.timed
  {
    hide Step;
    if acts != [] {
      UntimedStays(acts[..|acts| - 1]);
      RunValid(false, acts[..|acts| - 1]);
      UntimedStep(Run(Open(false), acts[..|acts| - 1]), acts[|acts| - 1]);
    }
  }

  /** What the reader got since the last flush, then what is live, is what was enqueued since then. */
  ghost predicate Delivered<E>(c: Client<E>) {
    && c.queue.taken <= |c.got|
    && (c.queue.dropped == 0 ==> c.got[|c.got| - c.queue.taken..] + c.queue.live == c.queue.enqueued)
  }

  lemma FillDelivers<E>(c: Client<E>, e: E)
    requires Delivered(c)
    ensures Delivered(Step(c, Fill(e)))
  {
    hide Signalled, WasReset, S.Step;
    if c.lock.Free? && Step(c, Fill(e)).queue.dropped == 0 {
      assert c.got[|c.got| - c.queue.taken..] + (c.queue.live + [e]) == c.queue.enqueued + [e];
    }
  }

  lemma TakeDelivers<E>(c: Client<E>)
    requires Delivered(c)
    ensures Delivered(Step(c, Take))
  {
    hide Signalled, WasReset, S.Step;
    var d := Step(c, Take);
    if d != c && d.queue.dropped == 0 {
      var was := c.got[|c.got| - c.queue.taken..];
      assert d.got[|d.got| - d.queue.taken..] == was + [c.queue.live[0]];
      assert was + [c.queue.live[0]] + c.queue.live[1..] == was + c.queue.live;
    }
  }

  lemma WalkKeepsQueue<E>(c: Client<E>, a: Act<E>)
    requires a.Register? || a.Store? || a.Check? || a.Cancel? || a.Look? || a.Leave? || a.Fire?
    ensures Step(c, a).got == c.got && Step(c, a).queue == c.queue
  {
    hide Signalled, WasReset, S.Step, Q.Put, Q.Get, Q.Report, Q.Empty;
  }

  lemma SemaphoreKeepsQueue<E>(c: Client<E>, a: Act<E>)
    requires a.Post? || a.FlushEnd? || a.Wait? || a.Wake? || a.Fired?
    ensures Step(c, a).got == c.got && Step(c, a).queue == c.queue
  {
    hide Signalled, WasReset, S.Step, Q.Put, Q.Get, Q.Report, Q.Empty;
  }

  lemma OthersDeliver<E>(c: Client<E>, a: Act<E>)
    requires Delivered(c) && (a.Report? || a.Begin?)
    ensures Delivered(Step(c, a))
  {
    hide Signalled, WasReset, S.Step, Q.Put, Q.Get;
  }

  lemma StepDelivers<E>(c: Client<E>, a: Act<E>)
    requires Delivered(c)
    ensures Delivered(Step(c, a))
  {
    hide Step;
    match a
    case Fill(e) => FillDelivers(c, e);
    case Take => TakeDelivers(c);
    case Report => OthersDeliver(c, a);
    case Begin(_) => OthersDeliver(c, a);
    case Post => SemaphoreKeepsQueue(c, a);
    case FlushEnd => SemaphoreKeepsQueue(c, a);
    case Wait(_) => SemaphoreKeepsQueue(c, a);
    case Wake(_) => SemaphoreKeepsQueue(c, a);
    case Fired => SemaphoreKeepsQueue(c, a);
    case _ => WalkKeepsQueue(c, a);
  }

  /** No event is lost, doubled or reordered on its way to the reader, whatever the interleaving, as long
      as none was overwritten. */
  lemma {:induction false} EventsArriveInOrder<E>(timed: bool, acts: seq<Act<E>>)
    ensures Delivered(Run(Open(timed), acts))
  {
    hide Step;
    if acts != [] {
      EventsArriveInOrder(timed, acts[..|acts| - 1]);
      StepDelivers(Run(Open(timed), acts[..|acts| - 1]), acts[|acts| - 1]);
    }
  }

  // ----- what one read does -----

  /** Past the time-out check, with no race since the last flush, a read hands over the oldest entry that was
      neither read nor dropped, and that is all it does. */
  lemma ReadHandsOver<E>(c: Client<E>)
    requires Valid(c) && c.place.Passed? && !c.raced && c.lock.Free?
    ensures var d := Step(Step(c, Look), Take);
            && c.queue.live != [] && c.queue.live[0] == c.queue.enqueued[c.queue.taken + c.queue.dropped]
            && d.got == c.got + [c.queue.live[0]] && d.queue.live == c.queue.live[1..] && d.queue.taken == c.queue.taken + 1
            && d == c.(got := d.got, queue := d.queue, place := Idle)
  {
    hide S.World.Valid, OneWaiter;
    Q.GetValid(c.queue);
  }

  /** A read with the queue turned off starts with nothing in the queue, nothing missed and no token. */
  lemma FlushEmpties<E>(c: Client<E>)
    requires Valid(c) && c.place.Idle? && c.lock.Free?
    ensures var d := Step(Step(c, Begin(true)), FlushEnd);
            && d.place == Starting && d.lock.Free? && d.queue.live == [] && d.queue.missed == 0 && d.sem.count == 0
            && Step(c, Begin(false)) == c.(place := Starting, byReset := false)
  {
    hide S.World.Valid, Q.Queue.Valid, WasReset;
    ResetGives(c.sem);
  }

  /** A reader asleep on an empty queue, with nothing else under way. */
  ghost predicate Quiet<E>(c: Client<E>) {
    && Valid(c) && c.place.Blocked? && c.place.ticket !in c.sem.granted && c.queue.live == []
    && c.lock.Free? && !c.firing && !c.raced && c.timer == c.timed
  }

  /** An event that is filled in and signalled wakes it, and is what it reads; a time-out is called off. */
  lemma EventIsRead<E>(c: Client<E>, e: E, pending: bool)
    requires Quiet(c)
    ensures var woken := Step(Step(Step(c, Fill(e)), Post), Wake(pending));
            var d := Step(Step(Step(Step(woken, Check), Cancel), Look), Take);
            woken.place == Holding && d.place == Idle && d.got == c.got + [e] && d.queue.live == [] && !d.timer && d.sem.count == 0
  {
    hide Step, Valid;
    PostWakes(c, e, pending);
    var woken := Step(Step(Step(c, Fill(e)), Post), Wake(pending));
    HoldingReads(woken, e);
  }

  lemma PostWakes<E>(c: Client<E>, e: E, pending: bool)
    requires Quiet(c)
    ensures var d := Step(Step(Step(c, Fill(e)), Post), Wake(pending));
            && d.place == Holding && d.lock.Free? && d.queue.live == [e] && d.got == c.got
            && d.timer == d.timed && d.sem.count == 0
  {
    hide S.World.Valid, Q.Queue.Valid, S.Step, Signalled;
    SignalGives(c.sem);
    CountOrWaiters(c.sem);
    var b := Step(Step(c, Fill(e)), Post);
    assert b.sem == Signalled(c.sem) && b.place == c.place && b.sem.granted == c.sem.granted + [c.place.ticket];
    UpWakeGives(b.sem, c.place.ticket, pending);
  }

  /** A task whose flag is up only takes note of it. */
  lemma UpWakeGives(w: S.World, t: S.Ticket, pending: bool)
    requires t in w.granted
    ensures S.Step(w, S.Recheck(t, pending, 1)).count == w.count
  {
  }

  lemma HoldingReads<E>(c: Client<E>, e: E)
    requires c.place == Holding && c.lock.Free? && c.queue.live == [e] && c.timer == c.timed
    ensures var d := Step(Step(Step(Step(c, Check), Cancel), Look), Take);
            d.place == Idle && d.got == c.got + [e] && d.queue.live == [] && !d.timer && d.sem == c.sem
  {
    hide S.Step, Signalled, WasReset, Q.Put;
    var passed := Step(Step(c, Check), Cancel);
    assert passed == c.(place := Passed, timer := false);
  }

  /** If its timer fires instead, it comes back with nothing read. */
  lemma TimeOutEndsRead<E>(c: Client<E>, pending: bool)
    requires Quiet(c) && c.timed && c.outstanding > 0
    ensures var d := Step(Step(Step(Step(c, Fire), Fired), Wake(pending)), Check);
            && d.place == Idle && d.got == c.got && d.queue == c.queue && !d.timer && !d.firing && d.outstanding == c.outstanding - 1
            && d.sem.count == 0
  {
    hide S.World.Valid, Q.Queue.Valid, S.Step, Signalled, WasReset;
    ResetGives(c.sem);
    CountOrWaiters(c.sem);
    var b := Step(Step(c, Fire), Fired);
    assert b.sem == WasReset(c.sem) && b.place == c.place && b.sem.granted == c.sem.granted + [c.place.ticket];
    UpWakeGives(b.sem, c.place.ticket, pending);
    assert Step(b, Wake(pending)).place == Holding;
  }

  /** And if a signal is pending when it wakes, it leaves with nothing read, its time-out called off. */
  lemma SignalEndsRead<E>(c: Client<E>)
    requires Quiet(c)
    ensures var d := Step(Step(c, Wake(true)), Leave);
            d.place == Idle && d.got == c.got && d.queue == c.queue && !d.timer && d.sem.list == []
  {
    hide S.World.Valid, Q.Queue.Valid, S.Step;
    CountOrWaiters(c.sem);
    WakeGives(c.sem, c.place.ticket, true);
  }

  lemma OneMore<E>(c: Client<E>, acts: seq<Act<E>>, a: Act<E>)
    ensures Run(c, acts + [a]) == Step(Run(c, acts), a)
  {
    assert (acts + [a])[..|acts|] == acts;
  }

  lemma FiveMore<E>(c: Client<E>, acts: seq<Act<E>>, a1: Act<E>, a2: Act<E>, a3: Act<E>, a4: Act<E>, a5: Act<E>)
    returns (all: seq<Act<E>>)
    ensures Run(c, all) == Step(Step(Step(Step(Step(Run(c, acts), a1), a2), a3), a4), a5)
  {
    hide Step, Run;
    OneMore(c, acts, a1);
    OneMore(c, acts + [a1], a2);
    OneMore(c, acts + [a1] + [a2], a3);
    OneMore(c, acts + [a1] + [a2] + [a3], a4);
    OneMore(c, acts + [a1] + [a2] + [a3] + [a4], a5);
    all := acts + [a1] + [a2] + [a3] + [a4] + [a5];
  }

  /** A timer fires before the reader has stored its number. */
  lemma StoredOver(c: Client<nat>)
    requires c == Open(true)
    ensures Step(Step(Step(Step(c, Begin(false)), Register(true)), Fire), Store)
            == c.(place := Entering, firing := true, timer := true, raced := true)
  {
    hide S.Step, Signalled, WasReset, Q.Put, Q.Get, Q.Report, Q.Empty, S.Fresh;
    var c2 := Step(Step(c, Begin(false)), Register(true));
    assert c2 == c.(place := Storing, outstanding := 1);
  }

  lemma FallsAsleep(c: Client<nat>)
    requires c.place == Entering && c.sem == S.Fresh(0)
    ensures Step(c, Wait(false)) == c.(place := Blocked(0), sem := S.Step(S.Fresh(0), S.Down(S.Interruptible, false, 1)))
  {
    hide S.Step, Signalled, WasReset, Q.Put, Q.Get, Q.Report, Q.Empty;
  }

  /** A reader asleep with a callback in flight that has already cleared Timer, and Timer set again. */
  lemma RaceBlocks() returns (acts: seq<Act<nat>>)
    ensures var c := Run(Open(true), acts);
            && c.place == Blocked(0) && c.sem == S.Step(S.Fresh(0), S.Down(S.Interruptible, false, 1)) && c.firing && c.timer
            && c.queue == Q.Empty() && c.timed && c.got == []
  {
    hide Run, Step, S.Step;
    var c := Open<nat>(true);
    NothingRun(c);
    acts := FiveMore(c, [], Begin(false), Register(true), Fire, Store, Wait(false));
    StoredOver(c);
    FallsAsleep(c.(place := Entering, firing := true, timer := true, raced := true));
  }

  lemma NothingRun<E>(c: Client<E>)
    ensures Run(c, []) == c
  {
  }

  /** The callback's reset wakes that reader, which finds Timer set and takes its wait for an event. */
  lemma WokenByReset(c: Client<nat>)
    requires c.place == Blocked(0) && c.sem == S.Step(S.Fresh(0), S.Down(S.Interruptible, false, 1)) && c.firing
    ensures var d := Step(Step(c, Fired), Wake(false));
            d.place == Holding && d.timer == c.timer && d.timed == c.timed && d.queue == c.queue && d.got == c.got
  {
    hide Signalled, S.Step, Q.Put, Q.Get, Q.Report, Q.Empty;
    ResetWakes(c.sem);
    var b := Step(c, Fired);
    assert b.place == Blocked(0) && 0 in b.sem.granted;
  }

  lemma ThenFindsNothing(d: Client<nat>)
    requires d.place == Holding && d.timer && d.timed && d.queue.live == []
    ensures var e := Step(Step(Step(d, Check), Cancel), Look); e.empty && e.place == Idle && e.got == d.got && !e.timer
  {
    hide Signalled, WasReset, S.Step, Q.Put, Q.Get, Q.Report, Q.Empty;
    assert Step(d, Check) == d.(place := Cancelling);
  }

  /** The exception is real: with no event at all, a callback clears Timer, the reader stores its timer's
      number over it and sleeps, and the callback's reset then wakes it with Timer set. */
  lemma RaceFindsNothing()
    ensures exists acts: seq<Act<nat>> :: var c := Run(Open(true), acts); c.empty && c.place == Idle && c.got == []
  {
    hide Run, Step, S.Step;
    var blocked := RaceBlocks();
    var c := Run(Open(true), blocked);
    var acts := FiveMore(Open(true), blocked, Fired, Wake(false), Check, Cancel, Look);
    WokenByReset(c);
    ThenFindsNothing(Step(Step(c, Fired), Wake(false)));
  }

  lemma ResetWakes(w: S.World)
    requires w == S.Step(S.Fresh(0), S.Down(S.Interruptible, false, 1))
    ensures WasReset(w).granted == [0]
  {
  }

  /** So, over all interleavings, that exit can be taken if and only if the client's time-out is not zero. */
  lemma EmptyExitIffTimed(timed: bool)
    ensures (exists acts: seq<Act<nat>> :: Run(Open(timed), acts).empty) <==> timed
  {
    hide Run, Step;
    if timed {
      RaceFindsNothing();
    } else {
      forall acts: seq<Act<nat>>
        ensures !Run(Open(false), acts).empty
      {
        UntimedNeverRaces(acts);
      }
    }
  }
}
