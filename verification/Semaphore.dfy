/** The counting semaphore of cdcm/cdcmTime.c and ctr/driver/cdcmSem.c as atomic steps under its lock,
    with any number of tasks and any interleaving. */
module SemSpec {

  /** How a task waits: `swait` ignoring signals, `swait` aborted by them, or `tswait` with a time-out. */
  datatype Patience = Uninterruptible | Interruptible | Timed

  /** A blocked task's place on its own stack, numbered in the order in which tasks were enqueued. */
  type Ticket = nat

  /** The semaphore, with the history of its tickets and tokens. A waiter's `up` flag is set when it is
      among the granted. */
  datatype World = World(
    count: nat, list: seq<Ticket>,
    kinds: seq<Patience>, granted: seq<Ticket>, quit: set<Ticket>, served: set<Ticket>,
    initial: nat, signals: nat, atOnce: nat, resetGrants: nat, resetDrops: nat)
  {
    function Issued(): nat {
      |kinds|
    }

    /** `__scount`. */
    function Level(): int {
      if count > 0 then count else -|list|
    }

    predicate Asleep(t: Ticket) {
      t < Issued() && t !in quit && t !in served
    }

    ghost predicate Valid() {
      && (count > 0 ==> list == [])
      && Increasing(list) && Increasing(granted)
      && (forall t <- granted, u <- list :: t < u)
      && (forall t :: t in list || t in granted || t in quit <==> 0 <= t < Issued())
      && (forall t <- list :: t !in granted && t !in quit)
      && (forall t <- granted :: t !in quit)
      && (forall t <- served :: t in granted)
      && initial + signals + resetGrants == count + atOnce + |granted| + resetDrops
    }
  }

  ghost predicate Increasing(s: seq<Ticket>) {
    forall i, j :: 0 <= i < j < |s| ==> s[i] < s[j]
  }

  function Remove<T(==)>(s: seq<T>, x: T): seq<T> {
    if s == [] then [] else if s[0] == x then s[1..] else [s[0]] + Remove(s[1..], x)
  }

  lemma FreshValid(initial: nat)
    ensures Fresh(initial).Valid()
  {
  }

  lemma Joined(a: seq<Ticket>, b: seq<Ticket>)
    ensures Increasing(a + b) <==> Increasing(a) && Increasing(b) && forall t <- a, u <- b :: t < u
  {
    var s := a + b;
    if Increasing(s) {
      forall i, j | 0 <= i < |a| && 0 <= j < |b|
        ensures a[i] < b[j]
      {
        assert s[i] < s[|a| + j];
      }
      forall i, j | 0 <= i < j < |b|
        ensures b[i] < b[j]
      {
        assert s[|a| + i] < s[|a| + j];
      }
      forall i, j | 0 <= i < j < |a|
        ensures a[i] < a[j]
      {
        assert s[i] < s[j];
      }
    } else if Increasing(a) && Increasing(b) && forall t <- a, u <- b :: t < u {
      forall i, j | 0 <= i < j < |s|
        ensures s[i] < s[j]
      {
        if i < |a| <= j {
          assert s[i] in a && s[j] in b;
        }
      }
    }
  }

  lemma {:induction false} RemoveTicket(s: seq<Ticket>, x: Ticket)
    requires Increasing(s)
    ensures Increasing(Remove(s, x)) && (forall y :: y in Remove(s, x) <==> y in s && y != x)
    ensures |Remove(s, x)| == if x in s then |s| - 1 else |s|
  {
    if s != [] {
      var rest := s[1..];
      assert s == [s[0]] + rest;
      Joined([s[0]], rest);
      RemoveTicket(rest, x);
      if s[0] == x {
        assert x !in rest;
      } else {
        Joined([s[0]], Remove(rest, x));
      }
    }
  }

  datatype Op =
    | Down(patience: Patience, pending: bool, left: int)        // arrive; `left` is the time-out asked for
    | Recheck(ticket: Ticket, pending: bool, left: int)         // a sleeping task runs again
    | TryLock
    | Signal(n: int)
    | Reset

  /** What a waiter that is not up does when it holds the lock: a pending signal counts first. */
  predicate GivesUp(patience: Patience, pending: bool, left: int) {
    (patience == Interruptible && pending) || (patience == Timed && left <= 0)
  }

  function Up(w: World): World {
    if w.list == [] then w.(count := w.count + 1, signals := w.signals + 1)
    else w.(list := w.list[1..], granted := w.granted + [w.list[0]], signals := w.signals + 1)
  }

  function Ups(w: World, n: nat): World {
    if n == 0 then w else Up(Ups(w, n - 1))
  }

  function Step(w: World, op: Op): World {
    match op
    case Down(patience, pending, left) =>
      if w.count > 0 then w.(count := w.count - 1, atOnce := w.atOnce + 1)
      else if GivesUp(patience, pending, left) then
        w.(kinds := w.kinds + [patience], quit := w.quit + {w.Issued()})
      else w.(kinds := w.kinds + [patience], list := w.list + [w.Issued()])
    case Recheck(t, pending, left) =>
      if !w.Asleep(t) then w
      else if t in w.granted then w.(served := w.served + {t})
      else if GivesUp(w.kinds[t], pending, left) then w.(list := Remove(w.list, t), quit := w.quit + {t})
      else w
    case TryLock =>
      if w.count > 0 then w.(count := w.count - 1, atOnce := w.atOnce + 1) else w
    case Signal(n) => Ups(w, if n < 0 then 0 else n)
    case Reset =>
      if w.count > 0 then w.(count := 0, resetDrops := w.resetDrops + w.count)
      else w.(list := [], granted := w.granted + w.list, resetGrants := w.resetGrants + |w.list|)
  }

  function Run(w: World, ops: seq<Op>): World {
    if ops == [] then w else Step(Run(w, ops[..|ops| - 1]), ops[|ops| - 1])
  }

  /** A semaphore first used with the value of the caller's variable. */
  function Fresh(initial: nat): World {
    World(initial, [], [], [], {}, {}, initial, 0, 0, 0, 0)
  }

  lemma Single(t: Ticket)
    ensures Increasing([t])
  {
  }

  lemma Nothing()
    ensures Increasing([])
  {
  }

  lemma UpValid(w: World)
    requires w.Valid()
    ensures Up(w).Valid() && Up(w).Level() == w.Level() + 1
  {
    hide Increasing;
    if w.list != [] {
      Single(w.list[0]);
      var v := Up(w);
      assert w.list == [w.list[0]] + v.list;
      Joined([w.list[0]], v.list);
      Joined(w.granted, [w.list[0]]);
      assert forall t :: t in w.list <==> t == w.list[0] || t in v.list;
      assert forall t :: t in v.granted <==> t in w.granted || t == w.list[0];
      assert w.list[0] in w.list && w.list[0] in [w.list[0]];
    }
  }

  lemma {:induction false} UpsValid(w: World, n: nat)
    requires w.Valid()
    ensures Ups(w, n).Valid() && Ups(w, n).Level() == w.Level() + n
  {
    if n > 0 {
      UpsValid(w, n - 1);
      UpValid(Ups(w, n - 1));
    }
  }

  lemma DownValid(w: World, patience: Patience, pending: bool, left: int)
    requires w.Valid()
    ensures Step(w, Down(patience, pending, left)).Valid()
  {
    hide Increasing;
    Single(w.Issued());
    Joined(w.list, [w.Issued()]);
  }

  lemma RecheckValid(w: World, t: Ticket, pending: bool, left: int)
    requires w.Valid()
    ensures Step(w, Recheck(t, pending, left)).Valid()
  {
    RemoveTicket(w.list, t);
  }

  lemma ResetValid(w: World)
    requires w.Valid()
    ensures Step(w, Reset).Valid() && Step(w, Reset).Level() == 0
  {
    hide Increasing;
    Nothing();
    Joined(w.granted, w.list);
  }

  /** Every atomic step keeps the invariant. */
  lemma StepValid(w: World, op: Op)
    requires w.Valid()
    ensures Step(w, op).Valid()
  {
    match op
    case Down(patience, pending, left) => DownValid(w, patience, pending, left);
    case Recheck(t, pending, left) => RecheckValid(w, t, pending, left);
    case TryLock =>
    case Signal(n) => UpsValid(w, if n < 0 then 0 else n);
    case Reset => ResetValid(w);
  }

  lemma {:induction false} RunValid(w: World, ops: seq<Op>)
    requires w.Valid()
    ensures Run(w, ops).Valid()
  {
    if ops != [] {
      RunValid(w, ops[..|ops| - 1]);
      StepValid(Run(w, ops[..|ops| - 1]), ops[|ops| - 1]);
    }
  }

  // ----- what it refines: one integer -----

  /** A task leaves without having been granted: a timed one when no time is left, an interruptible one when a
      signal is pending, an uninterruptible one never. */
  predicate Leaves(patience: Patience, pending: bool, left: int) {
    match patience
    case Uninterruptible => false
    case Interruptible => pending
    case Timed => left <= 0
  }

  /** The integer semaphore: how a step moves the level. */
  function Delta(w: World, op: Op): int {
    match op
    case Down(patience, pending, left) => if w.Level() <= 0 && Leaves(patience, pending, left) then 0 else -1
    case Recheck(t, pending, left) =>
      if w.Asleep(t) && t !in w.granted && Leaves(w.kinds[t], pending, left) then 1 else 0
    case TryLock => if w.Level() > 0 then -1 else 0
    case Signal(n) => if n < 0 then 0 else n
    case Reset => -w.Level()
  }

  /** `scount` is an exact integer semaphore: a signal adds one, `ssignaln` adds n, a down that
      succeeds or blocks takes one, a waiter that gives up puts one back, and a reset yields zero. */
  lemma LevelLaw(w: World, op: Op)
    requires w.Valid()
    ensures Step(w, op).Level() == w.Level() + Delta(w, op)
    ensures w.Level() == w.count - |w.list|
    ensures op.Down? ==> (Step(w, op).atOnce == w.atOnce + 1 <==> w.Level() > 0)
    ensures op.TryLock? ==> (Step(w, op).atOnce == w.atOnce + 1 <==> w.Level() > 0)
  {
    match op
    case Signal(n) => UpsValid(w, if n < 0 then 0 else n);
    case Recheck(t, pending, left) => RemoveTicket(w.list, t);
    case Reset => ResetValid(w);
    case _ =>
  }

  /** A task that runs again without having been granted, by kind: it goes off the list, and gives its unit back,
      or nothing changes. */
  lemma RecheckByKind(w: World, t: Ticket, pending: bool, left: int)
    requires w.Valid() && w.Asleep(t) && t !in w.granted
    ensures var r := Step(w, Recheck(t, pending, left));
            var out := r.list == Remove(w.list, t) && t !in r.list && t in r.quit && r.Level() == w.Level() + 1;
            && (w.kinds[t] == Timed ==> if left <= 0 then out else r == w)
            && (w.kinds[t] == Interruptible ==> if pending then out else r == w)
            && (w.kinds[t] == Uninterruptible ==> r == w)
  {
    RemoveTicket(w.list, t);
  }

  /** A task that finds no token: it is last on the list, or has left at once. */
  lemma DownByKind(w: World, patience: Patience, pending: bool, left: int)
    requires w.Valid() && w.count == 0
    ensures var r, t := Step(w, Down(patience, pending, left)), w.Issued();
            var out, waits := r.list == w.list && r.quit == w.quit + {t}, r.list == w.list + [t] && r.quit == w.quit;
            && r.kinds == w.kinds + [patience] && r.count == 0 && r.granted == w.granted
            && (patience == Timed ==> if left <= 0 then out else waits)
            && (patience == Interruptible ==> if pending then out else waits)
            && (patience == Uninterruptible ==> waits)
  {
  }

  /** A reset: all that wait are granted, in order, and return success; or all tokens are thrown away. */
  lemma ResetLaw(w: World, pending: bool, left: int)
    requires w.Valid()
    ensures var r := Step(w, Reset);
            && r.count == 0 && r.list == [] && r.granted == w.granted + w.list && r.quit == w.quit && r.kinds == w.kinds
            && (forall t <- w.list :: w.Asleep(t) ==> t in Step(r, Recheck(t, pending, left)).served)
  {
    assert w.granted + [] == w.granted;
  }

  function Moved(w: World, ops: seq<Op>): int {
    if ops == [] then 0
    else Moved(w, ops[..|ops| - 1]) + Delta(Run(w, ops[..|ops| - 1]), ops[|ops| - 1])
  }

  lemma {:induction false} RunLevel(w: World, ops: seq<Op>)
    requires w.Valid()
    ensures Run(w, ops).Level() == w.Level() + Moved(w, ops)
  {
    if ops != [] {
      RunLevel(w, ops[..|ops| - 1]);
      RunValid(w, ops[..|ops| - 1]);
      LevelLaw(Run(w, ops[..|ops| - 1]), ops[|ops| - 1]);
    }
  }

  // ----- grants -----

  /** n signals in one go grant the first n waiters, in order, and keep the rest as tokens. */
  lemma {:induction false} UpsGrant(w: World, n: nat)
    requires w.Valid()
    ensures var k := if n < |w.list| then n else |w.list|;
            Ups(w, n) == w.(list := w.list[k..], granted := w.granted + w.list[..k], count := w.count + (n - k),
                            signals := w.signals + n)
  {
    if n > 0 {
      UpsGrant(w, n - 1);
      var v := Ups(w, n - 1);
      if n <= |w.list| {
        assert w.list[n - 1..][1..] == w.list[n..];
        assert w.list[..n - 1] + [w.list[n - 1]] == w.list[..n];
      }
    } else {
      assert w.list[..0] == [] && w.list[0..] == w.list;
    }
  }

  /** So `ssignaln` in two calls is `ssignaln` in one. */
  lemma {:induction false} SignalsAdd(w: World, m: nat, n: nat)
    ensures Ups(Ups(w, m), n) == Ups(w, m + n)
  {
    if n > 0 {
      SignalsAdd(w, m, n - 1);
    }
  }

  ghost predicate Extends(w: World, r: World) {
    w.granted <= r.granted && w.quit <= r.quit && w.served <= r.served && w.kinds <= r.kinds
  }

  lemma StepExtends(w: World, op: Op)
    requires w.Valid()
    ensures Extends(w, Step(w, op))
  {
    hide Increasing;
    if op.Signal? {
      UpsGrant(w, if op.n < 0 then 0 else op.n);
    }
  }

  /** A grant is never taken back, doubled or reordered by anything that happens later; nor is a
      departure. */
  lemma {:induction false} GrantsStay(w: World, ops: seq<Op>)
    requires w.Valid()
    ensures Extends(w, Run(w, ops))
    ensures forall t <- w.granted :: t !in Run(w, ops).quit && t !in Run(w, ops).list
  {
    hide Increasing, Step;
    if ops != [] {
      GrantsStay(w, ops[..|ops| - 1]);
      RunValid(w, ops[..|ops| - 1]);
      StepExtends(Run(w, ops[..|ops| - 1]), ops[|ops| - 1]);
    }
    RunValid(w, ops);
    assert forall t <- w.granted :: t in Run(w, ops).granted;
  }

  lemma {:induction false} RemoveAt(s: seq<Ticket>, x: Ticket, i: nat) returns (j: nat)
    requires i < |s| && s[i] != x
    ensures j <= i && j < |Remove(s, x)| && Remove(s, x)[j] == s[i]
  {
    if s[0] == x {
      j := i - 1;
    } else if i == 0 {
      j := 0;
    } else {
      j := RemoveAt(s[1..], x, i - 1);
      j := j + 1;
    }
  }

  /** t waits with at most p others ahead of it. */
  ghost predicate WaitsAt(w: World, t: Ticket, p: int) {
    exists i :: 0 <= i <= p && i < |w.list| && w.list[i] == t
  }

  lemma OneSignal(op: Op)
    ensures Signals([op]) == if op.Signal? && op.n > 0 then op.n else 0
  {
    assert [op][..0] == [];
  }

  lemma SignalMovesUp(w: World, t: Ticket, i: nat, m: nat)
    requires w.Valid() && i < |w.list| && w.list[i] == t && t in Ups(w, m).list
    ensures i >= m && WaitsAt(Ups(w, m), t, i - m)
  {
    UpsGrant(w, m);
    var r := Ups(w, m);
    assert r.list == if m <= |w.list| then w.list[m..] else [];
    var k :| 0 <= k < |r.list| && r.list[k] == t;
    assert w.list[m + k] == w.list[i] && m + k == i;
    assert r.list[i - m] == t;
  }

  lemma RecheckMovesUp(w: World, t: Ticket, i: nat, op: Op)
    requires w.Valid() && i < |w.list| && w.list[i] == t && op.Recheck? && t in Step(w, op).list
    ensures WaitsAt(Step(w, op), t, i)
  {
    hide Increasing;
    var r := Step(w, op);
    assert r.list == w.list || r.list == Remove(w.list, op.ticket);
    if r.list == w.list {
      assert r.list[i] == t;
    } else {
      TicketGone(w.list, op.ticket);
      var j := RemoveAt(w.list, op.ticket, i);
      assert r.list[j] == t;
    }
  }

  lemma TicketGone(s: seq<Ticket>, x: Ticket)
    requires Increasing(s)
    ensures x !in Remove(s, x)
  {
    RemoveTicket(s, x);
  }

  lemma StepMovesUp(w: World, t: Ticket, p: nat, op: Op)
    requires w.Valid() && WaitsAt(w, t, p) && t in Step(w, op).list
    ensures WaitsAt(Step(w, op), t, p - Signals([op]))
  {
    hide Increasing, Ups, Remove;
    var i :| 0 <= i <= p && i < |w.list| && w.list[i] == t;
    OneSignal(op);
    match op
    case Signal(n) =>
      SignalMovesUp(w, t, i, if n < 0 then 0 else n);
    case Recheck(_, _, _) =>
      RecheckMovesUp(w, t, i, op);
    case Down(_, _, _) =>
      assert Step(w, op).list[i] == t;
    case TryLock =>
      assert Step(w, op).list[i] == t;
    case Reset =>
  }

  /** No waiter starves: with p waiters ahead of it, at most p signals can go by, whatever else happens
      in between; one more and it has been granted or has left. */
  lemma {:induction false} NoStarvation(w: World, ops: seq<Op>, t: Ticket, p: nat)
    requires w.Valid() && WaitsAt(w, t, p)
    ensures t in Run(w, ops).list ==> WaitsAt(Run(w, ops), t, p - Signals(ops))
    ensures Signals(ops) > p ==> t in Run(w, ops).granted || t in Run(w, ops).quit
  {
    hide Increasing, Step;
    RunValid(w, ops);
    GrantsStay(w, ops);
    assert t in w.list && t < w.Issued() <= Run(w, ops).Issued();
    if ops != [] {
      var before, op := Run(w, ops[..|ops| - 1]), ops[|ops| - 1];
      NoStarvation(w, ops[..|ops| - 1], t, p);
      RunValid(w, ops[..|ops| - 1]);
      StepExtends(before, op);
      OneSignal(op);
      if t in before.list && t in Run(w, ops).list {
        StepMovesUp(before, t, p - Signals(ops[..|ops| - 1]), op);
        assert p - Signals(ops[..|ops| - 1]) - Signals([op]) == p - Signals(ops);
      } else if t !in before.list {
        GrantsStay(w, ops[..|ops| - 1]);
        assert t in before.granted || t in before.quit;
        assert t in Run(w, ops).granted || t in Run(w, ops).quit;
      }
    }
  }

  /** Over any interleaving from the first use: who is waiting, who was granted and who left are told
      apart; a granted task was enqueued before all that still wait; and whoever was enqueued before
      a granted task was granted before it or left. */
  lemma FifoGrants(initial: nat, ops: seq<Op>)
    ensures var w := Run(Fresh(initial), ops);
            && (w.count > 0 ==> w.list == [])
            && (forall t: Ticket | t < w.Issued() ::
                  (t in w.list && t !in w.granted && t !in w.quit) || (t !in w.list && t in w.granted && t !in w.quit)
                  || (t !in w.list && t !in w.granted && t in w.quit))
            && (forall i, j :: 0 <= i < j < |w.granted| ==> w.granted[i] < w.granted[j])
            && (forall i, u: Ticket :: 0 <= i < |w.granted| && u < w.granted[i] && u !in w.quit ==>
                  exists j :: 0 <= j < i && w.granted[j] == u)
  {
    hide Run;
    RunValid(Fresh(initial), ops);
    var w := Run(Fresh(initial), ops);
    forall i, u: Ticket | 0 <= i < |w.granted| && u < w.granted[i] && u !in w.quit
      ensures exists j :: 0 <= j < i && w.granted[j] == u
    {
      assert w.granted[i] in w.granted && w.granted[i] < w.Issued();
      assert u in w.granted;
      var j :| 0 <= j < |w.granted| && w.granted[j] == u;
      assert j < i;
    }
  }

  /** Tokens are conserved: what was put in (at first, by signals, by a reset waking waiters) is what is
      left, what was acquired at once or by grants, and what resets threw away. */
  lemma TokensConserved(initial: nat, ops: seq<Op>)
    ensures var w := Run(Fresh(initial), ops);
            && initial + w.signals + w.resetGrants - w.resetDrops == w.count + w.atOnce + |w.granted|
            && w.signals == Signals(ops)
  {
    RunValid(Fresh(initial), ops);
    SignalsCounted(Fresh(initial), ops);
  }

  function Signals(ops: seq<Op>): nat {
    if ops == [] then 0
    else
      var last := ops[|ops| - 1];
      Signals(ops[..|ops| - 1]) + if last.Signal? && last.n > 0 then last.n else 0
  }

  lemma {:induction false} SignalsCounted(w: World, ops: seq<Op>)
    requires w.Valid()
    ensures Run(w, ops).signals == w.signals + Signals(ops) && Run(w, ops).initial == w.initial
  {
    if ops != [] {
      SignalsCounted(w, ops[..|ops| - 1]);
      RunValid(w, ops[..|ops| - 1]);
      if ops[|ops| - 1].Signal? {
        UpsGrant(Run(w, ops[..|ops| - 1]), if ops[|ops| - 1].n < 0 then 0 else ops[|ops| - 1].n);
      }
    }
  }

  /** A waiter whose flag is up returns success the next time it runs, whatever signals are pending and
      whatever time is left; one whose flag is down never does. */
  lemma UpMeansSuccess(w: World, t: Ticket, pending: bool, left: int)
    requires w.Valid() && w.Asleep(t)
    ensures t in w.list <==> t !in w.granted
    ensures t in w.granted <==> t in Step(w, Recheck(t, pending, left)).served
    ensures t in Step(w, Recheck(t, pending, left)).quit <==> t in w.list && GivesUp(w.kinds[t], pending, left)
  {
  }
}
