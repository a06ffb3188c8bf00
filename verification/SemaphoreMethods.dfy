/** The semaphore's operations as the source writes them, each one critical section under the lock. */
module SemOps {
  import opened SemSpec

  /** `cdcm_sem_waiter`, on the stack of a blocked task. */
  class Waiter {
    var up: bool

    constructor ()
      ensures !up
    {
      up := false;
    }
  }

  datatype Outcome = Acquired | Sleeping | Interrupted | TimedOut

  /** What a waiter that holds the lock again returns, or that it sleeps on. */
  function Verdict(up: bool, patience: Patience, pending: bool, left: int): Outcome {
    if up then Acquired
    else if patience == Interruptible && pending then Interrupted
    else if patience == Timed && left <= 0 then TimedOut
    else Sleeping
  }

  class Semaphore {
    var count: nat
    var waitList: seq<Waiter>
    ghost var waiters: seq<Waiter> // by ticket
    ghost var world: World

    ghost predicate Valid()
      reads this, waiters
    {
      && world.Valid() && count == world.count
      && |waiters| == world.Issued() && (forall t, u :: 0 <= t < u < |waiters| ==> waiters[t] != waiters[u])
      && Listed(waitList, waiters, world.list)
      && forall t :: 0 <= t < |waiters| ==> waiters[t].up == (t in world.granted)
    }

    constructor (initial: nat)
      ensures Valid() && world == Fresh(initial)
    {
      count, waitList, waiters, world := initial, [], [], Fresh(initial);
    }

    /** `__cdcm_up_waiter`. */
    method UpWaiter()
      requires Valid() && waitList != []
      modifies this, waiters
      ensures Valid() && waiters == old(waiters)
      ensures world == old(world).(list := old(world.list)[1..], granted := old(world.granted) + [old(world.list)[0]],
                                   signals := old(world.signals) + 1)
    {
      ghost var t := world.list[0];
      UpValid(world);
      var first := waitList[0];
      waitList := waitList[1..];
      world := SemSpec.Up(world);
      first.up := true;
    }

    /** `__cdcm_up`. */
    method Up()
      requires Valid()
      modifies this, waiters
      ensures Valid() && world == SemSpec.Up(old(world)) && waiters == old(waiters)
    {
      if waitList == [] {
        UpValid(world);
        count := count + 1;
        world := SemSpec.Up(world);
      } else {
        UpWaiter();
      }
    }

    /** `ssignaln`. */
    method SignalN(n: int)
      requires Valid()
      modifies this, waiters
      ensures Valid() && world == Step(old(world), Signal(n))
    {
      var i := 0;
      while i < n
        invariant Valid() && waiters == old(waiters) && (0 == i || 0 <= i <= n)
        invariant world == Ups(old(world), i)
      {
        Up();
        i := i + 1;
      }
    }

    method WakeAll()
      requires Valid() && count == 0
      modifies this, waiters
      ensures Valid() && waiters == old(waiters) && world == Ups(old(world), |old(world.list)|)
    {
      ghost var w := world;
      var n := |waitList|;
      var i := 0;
      while i < n
        invariant i <= n == |w.list| && Valid() && waiters == old(waiters) && |waitList| == n - i
        invariant world == Ups(w, i)
      {
        UpWaiter();
        i := i + 1;
      }
    }

    /** `__sreset`. */
    method Reset()
      requires Valid()
      modifies this, waiters
      ensures Valid() && waiters == old(waiters) && world == Step(old(world), SemSpec.Reset)
    {
      hide Increasing;
      ghost var w := world;
      ResetValid(w);
      if count == 0 {
        WakeAll();
        UpsGrant(w, |w.list|);
        assert w.list[..|w.list|] == w.list && w.list[|w.list|..] == [];
      } else {
        count := 0;
      }
      world := Step(w, SemSpec.Reset);
    }

    /** `__scount`. */
    method Level() returns (level: int)
      requires Valid()
      ensures level == world.Level() == world.count - |world.list|
    {
      if count > 0 {
        level := count;
      } else {
        level := -1 * |waitList|;
      }
    }

    method TryDown() returns (failed: bool)
      requires Valid()
      modifies this
      ensures Valid() && world == Step(old(world), TryLock) && waiters == old(waiters)
      ensures failed == (old(world.Level()) <= 0)
    {
      StepValid(world, TryLock);
      var c := count - 1;
      world := Step(world, TryLock);
      if c >= 0 {
        count := c;
      }
      failed := c < 0;
    }

    /** The downs up to their first sleep or their return. The waiter is enqueued before the pending
        signal and the time-out are looked at. Waits without a time-out have the largest one. */
    method Down(patience: Patience, pending: bool, left: int) returns (outcome: Outcome, waiter: Waiter?)
      requires Valid() && (patience != Timed ==> left > 0)
      modifies this
      ensures Valid() && world == Step(old(world), SemSpec.Down(patience, pending, left))
      ensures outcome == Acquired <==> old(world.Level()) > 0
      ensures outcome == TimedOut <==> old(world.Level()) <= 0 && patience == Timed && left <= 0
      ensures outcome == Interrupted <==> old(world.Level()) <= 0 && patience == Interruptible && pending
      ensures if old(count) > 0 then waiters == old(waiters) else waiter != null && fresh(waiter) && waiters == old(waiters) + [waiter]
    {
      hide Increasing;
      ghost var w := world;
      DownValid(w, patience, pending, left);
      waiter := null;
      if count > 0 {
        count := count - 1;
        outcome := Acquired;
      } else {
        var mine := new Waiter();
        waitList := waitList + [mine];
        waiters := waiters + [mine];
        outcome := Verdict(false, patience, pending, left);
        if outcome != Sleeping {
          RemoveLast(old(waitList), mine);
          waitList := Remove(waitList, mine);
        }
        waiter := mine;
      }
      world := Step(w, SemSpec.Down(patience, pending, left));
    }

    /** A sleeping task runs again and looks at its flag first. */
    method Recheck(waiter: Waiter, ghost t: Ticket, patience: Patience, pending: bool, left: int) returns (outcome: Outcome)
      requires Valid() && world.Asleep(t) && waiter == waiters[t] && patience == world.kinds[t]
      requires patience != Timed ==> left > 0
      modifies this
      ensures Valid() && world == Step(old(world), SemSpec.Recheck(t, pending, left)) && waiters == old(waiters)
      ensures outcome == Acquired <==> t in old(world.granted)
      ensures outcome == TimedOut <==> t !in old(world.granted) && patience == Timed && left <= 0
      ensures outcome == Interrupted <==> t !in old(world.granted) && patience == Interruptible && pending
    {
      ghost var w := world;
      RecheckValid(w, t, pending, left);
      outcome := Verdict(waiter.up, patience, pending, left);
      if outcome == Interrupted || outcome == TimedOut {
        RemoveListed(waitList, waiters, w.list, t);
        waitList := Remove(waitList, waiter);
      }
      world := Step(w, SemSpec.Recheck(t, pending, left));
    }
  }

  /** The wait list holds the waiters of these tickets, in this order. */
  ghost predicate Listed(list: seq<Waiter>, waiters: seq<Waiter>, tickets: seq<Ticket>) {
    && |list| == |tickets|
    && forall i :: 0 <= i < |list| ==> tickets[i] < |waiters| && list[i] == waiters[tickets[i]]
  }

  lemma {:induction false} RemoveLast(s: seq<Waiter>, x: Waiter)
    requires x !in s
    ensures Remove(s + [x], x) == s
  {
    if s != [] {
      assert (s + [x])[1..] == s[1..] + [x];
      RemoveLast(s[1..], x);
    }
  }

  lemma ConsListed(w: Waiter, list: seq<Waiter>, waiters: seq<Waiter>, t: Ticket, tickets: seq<Ticket>)
    requires Listed(list, waiters, tickets) && t < |waiters| && w == waiters[t]
    ensures Listed([w] + list, waiters, [t] + tickets)
  {
  }

  /** Unlinking a waiter removes its ticket. */
  lemma {:induction false} RemoveListed(list: seq<Waiter>, waiters: seq<Waiter>, tickets: seq<Ticket>, t: Ticket)
    requires Listed(list, waiters, tickets) && t < |waiters|
    requires forall t, u :: 0 <= t < u < |waiters| ==> waiters[t] != waiters[u]
    ensures Listed(Remove(list, waiters[t]), waiters, Remove(tickets, t))
  {
    if list != [] {
      hide Increasing;
      RemoveListed(list[1..], waiters, tickets[1..], t);
      assert list[0] == waiters[t] <==> tickets[0] == t;
      ConsListed(list[0], Remove(list[1..], waiters[t]), waiters, tickets[0], Remove(tickets[1..], t));
    }
  }
}
