/** What a shift leaves on the pins besides its bits: the states the controller goes through and the waits. */
module PathLaws {
  import opened Errors
  import opened Hardware
  import opened Lines
  import opened Ports
  import opened Retry
  import opened ScanLaws
  import Bytes
  import LoadLaws
  import Shifting
  import Tap

  /** The TAP states of a hardware after each rising edge, and its waits: the state it waits in, and how long. */
  datatype Event = In(state: Tap.State) | Wait(state: Tap.State, usec: nat)

  function Events(core: Core, h0: Hw, log: History): seq<Event> {
    match log
    case Start => []
    case Then(before, Sleep(usec)) => Events(core, h0, before) + [Event.Wait(Run(core, h0, before).tap, usec)]
    case Then(before, Drive(p)) =>
      Events(core, h0, before)
      + if !Run(core, h0, before).tck && p.tck then [In(Tap.Next(Run(core, h0, before).tap, p.tms))] else []
  }

  lemma QuietEvents(core: Core, h0: Hw, w: Wire, pin: Pin, v: bool)
    requires !pin.TCK? && Run(core, h0, w.log).tck == w.pins.tck
    ensures Events(core, h0, Set(w, pin, v).log) == Events(core, h0, w.log)
  {
  }

  lemma PulseEvents(core: Core, h0: Hw, w: Wire)
    ensures Events(core, h0, Pulse(w).log)
            == Events(core, h0, w.log) + [In(Tap.Next(Run(core, h0, w.log).tap, w.pins.tms))]
  {
    var low := Set(w, TCK, false);
    assert Events(core, h0, low.log) == Events(core, h0, w.log);
    assert Run(core, h0, low.log).tap == Run(core, h0, w.log).tap && !Run(core, h0, low.log).tck;
  }

  lemma WaitEvents(core: Core, h0: Hw, w: Wire, usec: nat)
    ensures Events(core, h0, Ports.Wait(w, usec).log)
            == Events(core, h0, w.log) + [Event.Wait(Run(core, h0, w.log).tap, usec)]
  {
  }

  lemma StepEvents(core: Core, h0: Hw, l: Line, tms: bool, tap: nat)
    requires InStep(core, h0, l)
    ensures Events(core, h0, Step(l, tms, tap).wire.log)
            == Events(core, h0, l.wire.log) + [In(Tap.Next(Run(core, h0, l.wire.log).tap, tms))]
  {
    hide Events, Pulse;
    QuietEvents(core, h0, l.wire, TMS, tms);
    QuietWrite(core, h0, l.wire, TMS, tms);
    PulseEvents(core, h0, Set(l.wire, TMS, tms));
  }

  /** The state with a code. */
  function StateOf(code: nat): (s: Tap.State)
    requires code <= Tap.UPDATEIR
    ensures Tap.Code(s) == code
  {
    if code == 0 then Tap.TestLogicReset else if code == 1 then Tap.RunTestIdle else if code == 2 then Tap.SelectDR
    else if code == 3 then Tap.CaptureDR else if code == 4 then Tap.ShiftDR else if code == 5 then Tap.Exit1DR
    else if code == 6 then Tap.PauseDR else if code == 7 then Tap.Exit2DR else if code == 8 then Tap.UpdateDR
    else if code == 9 then Tap.SelectIR else if code == 10 then Tap.CaptureIR else if code == 11 then Tap.ShiftIR
    else if code == 12 then Tap.Exit1IR else if code == 13 then Tap.PauseIR else if code == 14 then Tap.Exit2IR
    else Tap.UpdateIR
  }

  lemma OneState(s: Tap.State, code: nat)
    requires code <= Tap.UPDATEIR && Tap.Code(s) == code
    ensures s == StateOf(code)
  {
  }

  /** The states on the way to a target. */
  function Route(cur: nat, target: nat): seq<Event>
    requires Tap.Reachable(cur, target)
    decreases Tap.Rank(cur, target)
  {
    if cur == target then []
    else
      Tap.RankDrops(cur, target);
      [In(StateOf(Tap.Branch(cur, target).1))] + Route(Tap.Branch(cur, target).1, target)
  }

  lemma {:induction false} WalkEvents(core: Core, h0: Hw, l: Line, target: nat)
    requires InStep(core, h0, l) && Tap.Reachable(l.tap, target)
    ensures Events(core, h0, Walk(l, target).wire.log) == Events(core, h0, l.wire.log) + Route(l.tap, target)
    decreases Tap.Rank(l.tap, target)
  {
    hide Events, Pulse, Set, StateOf, Tap.Branch, Tap.Rank;
    if l.tap != target {
      Tap.RankDrops(l.tap, target);
      var (tms, next) := Tap.Branch(l.tap, target);
      var s := Tap.Next(Run(core, h0, l.wire.log).tap, tms);
      BranchStays(core, h0, l, target);
      OneState(s, next);
      StepEvents(core, h0, l, tms, next);
      WalkEvents(core, h0, Step(l, tms, next), target);
      Regroup(Events(core, h0, l.wire.log), In(s), Route(next, target));
    }
  }

  lemma BranchStays(core: Core, h0: Hw, l: Line, target: nat)
    requires InStep(core, h0, l) && Tap.Reachable(l.tap, target) && l.tap != target
    ensures var (tms, next) := Tap.Branch(l.tap, target);
            && next <= Tap.UPDATEIR && Tap.Code(Tap.Next(Run(core, h0, l.wire.log).tap, tms)) == next
            && InStep(core, h0, Step(l, tms, next))
  {
    hide Pulse, Set, Tap.Rank;
    Tap.RankDrops(l.tap, target);
    Tap.BranchIsNext(Run(core, h0, l.wire.log).tap, target);
    StepInStep(core, h0, l, Tap.Branch(l.tap, target).0);
  }

  lemma Regroup(a: seq<Event>, e: Event, b: seq<Event>)
    ensures a + [e] + b == a + ([e] + b)
  {
  }

  lemma Hop(cur: nat, target: nat, s: Tap.State)
    requires Tap.Reachable(cur, target) && cur != target && Tap.Branch(cur, target).1 == Tap.Code(s)
    ensures Tap.Reachable(Tap.Code(s), target) && Route(cur, target) == [In(s)] + Route(Tap.Code(s), target)
  {
    hide Tap.Rank;
    Tap.RankDrops(cur, target);
    OneState(s, Tap.Code(s));
  }

  lemma Arrived(target: nat)
    requires Tap.Reachable(target, target)
    ensures Route(target, target) == []
  {
  }

  /** Routes out of a scan of the data register, */
  lemma RoutesOutDR()
    ensures Route(5, 6) == [In(Tap.PauseDR)] && Route(6, 4) == [In(Tap.Exit2DR), In(Tap.ShiftDR)]
    ensures Route(4, 1) == [In(Tap.Exit1DR), In(Tap.UpdateDR), In(Tap.RunTestIdle)]
    ensures Route(5, 1) == [In(Tap.UpdateDR), In(Tap.RunTestIdle)]
    ensures Route(6, 1) == [In(Tap.Exit2DR), In(Tap.UpdateDR), In(Tap.RunTestIdle)]
  {
    hide Route;
    Hop(5, 6, Tap.PauseDR);
    Arrived(6);
    Hop(6, 4, Tap.Exit2DR);
    Hop(7, 4, Tap.ShiftDR);
    Arrived(4);
    Hop(4, 1, Tap.Exit1DR);
    Hop(5, 1, Tap.UpdateDR);
    Hop(8, 1, Tap.RunTestIdle);
    Arrived(1);
    Hop(6, 1, Tap.Exit2DR);
    Hop(7, 1, Tap.UpdateDR);
  }

  /** and of the instruction register. */
  lemma RoutesOutIR()
    ensures Route(12, 13) == [In(Tap.PauseIR)] && Route(12, 1) == [In(Tap.UpdateIR), In(Tap.RunTestIdle)]
    ensures Route(13, 1) == [In(Tap.Exit2IR), In(Tap.UpdateIR), In(Tap.RunTestIdle)]
  {
    hide Route;
    Hop(12, 13, Tap.PauseIR);
    Arrived(13);
    Hop(12, 1, Tap.UpdateIR);
    Hop(15, 1, Tap.RunTestIdle);
    Arrived(1);
    Hop(13, 1, Tap.Exit2IR);
    Hop(14, 1, Tap.UpdateIR);
  }

  /** A pause state asked for while in it is left by its exit state and entered again, by way of a capture. */
  lemma RoutesRound()
    ensures [In(Tap.Exit2DR)] + Route(7, 6)
            == [In(Tap.Exit2DR), In(Tap.UpdateDR), In(Tap.SelectDR), In(Tap.CaptureDR), In(Tap.Exit1DR), In(Tap.PauseDR)]
    ensures [In(Tap.Exit2IR)] + Route(14, 13)
            == [In(Tap.Exit2IR), In(Tap.UpdateIR), In(Tap.SelectDR), In(Tap.SelectIR), In(Tap.CaptureIR), In(Tap.Exit1IR),
                In(Tap.PauseIR)]
  {
    hide Route;
    Hop(7, 6, Tap.UpdateDR);
    Hop(8, 6, Tap.SelectDR);
    Hop(2, 6, Tap.CaptureDR);
    Hop(3, 6, Tap.Exit1DR);
    Hop(5, 6, Tap.PauseDR);
    Arrived(6);
    Hop(14, 13, Tap.UpdateIR);
    Hop(15, 13, Tap.SelectDR);
    Hop(2, 13, Tap.SelectIR);
    Hop(9, 13, Tap.CaptureIR);
    Hop(10, 13, Tap.Exit1IR);
    Hop(12, 13, Tap.PauseIR);
    Arrived(13);
  }

  lemma GotoEvents(core: Core, h0: Hw, l: Line, target: nat)
    requires InStep(core, h0, l) && Named(target) && !Tap.Illegal(l.tap, target)
    ensures Events(core, h0, Goto(l, target).wire.log)
            == Events(core, h0, l.wire.log)
               + if LeavesPause(l.tap, target) then [In(StateOf(target + 1))] + Route(target + 1, target) else Route(l.tap, target)
  {
    hide Events, Pulse, Set, StateOf, Tap.Rank, Route, Walk;
    if LeavesPause(l.tap, target) {
      var m := Step(l, true, target + 1);
      var s := Tap.Next(Run(core, h0, l.wire.log).tap, true);
      StepInStep(core, h0, l, true);
      OneState(s, target + 1);
      StepEvents(core, h0, l, true, target + 1);
      WalkEvents(core, h0, m, target);
      Regroup(Events(core, h0, l.wire.log), In(s), Route(target + 1, target));
    } else {
      WalkEvents(core, h0, l, target);
    }
  }

  /** The states a caller may name other than the reset state. */
  predicate Named(target: nat) {
    Tap.RUNTEST <= target <= Tap.UPDATEIR
  }

  lemma WaitIdleEvents(core: Core, h0: Hw, l: Line, runTest: nat)
    requires InStep(core, h0, l)
    ensures Events(core, h0, WaitIdle(l, runTest).wire.log)
            == Events(core, h0, l.wire.log) + if runTest == 0 then [] else Route(l.tap, 1) + [Event.Wait(Tap.RunTestIdle, runTest)]
  {
    hide Events, Route, Goto, Ports.Wait;
    if runTest != 0 {
      GotoEvents(core, h0, l, 1);
      GotoInStep(core, h0, l, 1);
      WaitEvents(core, h0, Goto(l, 1).wire, runTest);
    }
  }

  // ----- after a scan -----

  /** From Exit1-DR, or Exit1-IR, to the end state, and on to Run-Test/Idle if there is a wait. */
  function Leaving(ir: bool, end: nat, runTest: nat): seq<Event> {
    var pause, exit2, update := if ir then Tap.PauseIR else Tap.PauseDR, if ir then Tap.Exit2IR else Tap.Exit2DR,
                                if ir then Tap.UpdateIR else Tap.UpdateDR;
    var idle := if runTest == 0 then [] else [Event.Wait(Tap.RunTestIdle, runTest)];
    if end == Tap.RUNTEST then [In(update), In(Tap.RunTestIdle)] + idle
    else if runTest == 0 then [In(pause)]
    else [In(pause), In(exit2), In(update), In(Tap.RunTestIdle)] + idle
  }

  /** Before a retry with a wait: one more pass through Pause-DR and Shift-DR, and a wait of a quarter more. */
  function Retrying(runTest: nat): seq<Event> {
    [In(Tap.PauseDR), In(Tap.Exit2DR), In(Tap.ShiftDR), In(Tap.Exit1DR), In(Tap.UpdateDR), In(Tap.RunTestIdle),
     Event.Wait(Tap.RunTestIdle, runTest + runTest / 4)]
  }

  lemma LeavesToEnd(core: Core, h0: Hw, b: Bench, job: Job)
    requires b.Valid() && job.Valid() && InStep(core, h0, b.line) && LoadLaws.EndsInColumn(job) && job.Exits()
    requires b.line.tap == job.start + 1
    ensures Events(core, h0, Settled(b, job, false).line.wire.log)
            == Events(core, h0, b.line.wire.log) + Leaving(job.start == Tap.SHIFTIR, job.end, b.runTest)
  {
    hide Events, Route, Goto, WaitIdle;
    RoutesOutDR();
    RoutesOutIR();
    Arrived(1);
    GotoEvents(core, h0, b.line, job.end);
    GotoInStep(core, h0, b.line, job.end);
    WaitIdleEvents(core, h0, Goto(b.line, job.end), b.runTest);
  }

  lemma LeavesForRetry(core: Core, h0: Hw, b: Bench, job: Job)
    requires b.Valid() && job.Valid() && InStep(core, h0, b.line) && job.start == Tap.SHIFTDR && job.Exits()
    requires b.line.tap == Tap.EXIT1DR && b.runTest != 0
    ensures Events(core, h0, Settled(b, job, true).line.wire.log) == Events(core, h0, b.line.wire.log) + Retrying(b.runTest)
    ensures Settled(b, job, true).runTest == b.runTest + b.runTest / 4
  {
    hide Events, Route, Goto, WaitIdle;
    RoutesOutDR();
    GotoEvents(core, h0, b.line, 6);
    GotoInStep(core, h0, b.line, 6);
    GotoEvents(core, h0, Goto(b.line, 6), 4);
    GotoInStep(core, h0, Goto(b.line, 6), 4);
    WaitIdleEvents(core, h0, Goto(Goto(b.line, 6), 4), b.runTest + b.runTest / 4);
  }

  // ----- the scan itself -----

  lemma BitEvents(core: Core, h0: Hw, w: Wire, bit: bool, leave: bool)
    requires Run(core, h0, w.log).tck == w.pins.tck && !w.pins.tms
    ensures Events(core, h0, Shifting.ShiftBit(w, bit, leave).log)
            == Events(core, h0, w.log) + [In(Tap.Next(Run(core, h0, w.log).tap, leave))]
  {
    hide Events;
    var w1 := if leave then Set(w, TMS, true) else w;
    if leave {
      QuietEvents(core, h0, w, TMS, true);
      QuietWrite(core, h0, w, TMS, true);
    }
    QuietEvents(core, h0, w1, TDI, bit);
    QuietWrite(core, h0, w1, TDI, bit);
    PulseEvents(core, h0, Set(w1, TDI, bit));
  }

  /** A scan of n bits is n edges in the shift state; one that exits leaves it with the last of them. */
  lemma {:induction false} ScanEvents(core: Core, h0: Hw, w: Wire, bits: seq<bool>, exit: bool)
    requires Ready(core, h0, w) && bits != []
    ensures var shift := Run(core, h0, w.log).tap;
            Events(core, h0, Shifting.Shift(w, bits, exit).log)
            == Events(core, h0, w.log) + seq(|bits| - 1, _ => In(shift)) + [In(Tap.Next(shift, exit))]
    decreases |bits|
  {
    hide Events, Run, Shifting.ShiftBit;
    var n := |bits| - 1;
    var before := Shifting.Shift(w, bits[..n], false);
    var shift := Run(core, h0, w.log).tap;
    StillReady(core, h0, w, bits[..n]);
    if n > 0 {
      ShiftRuns(core, h0, w, bits[..n], false);
      ScanEvents(core, h0, w, bits[..n], false);
      OneMoreOf(shift, n);
    }
    BitEvents(core, h0, before, bits[n], exit);
  }

  lemma OneMoreOf(s: Tap.State, n: nat)
    requires n > 0
    ensures seq(n, _ => In(s)) == seq(n - 1, _ => In(s)) + [In(s)]
  {
  }

  // ----- the waits -----

  function Waits(es: seq<Event>): seq<Event> {
    if es == [] then [] else Waits(es[..|es| - 1]) + if es[|es| - 1].Wait? then [es[|es| - 1]] else []
  }

  lemma {:induction false} WaitsJoin(a: seq<Event>, b: seq<Event>)
    ensures Waits(a + b) == Waits(a) + Waits(b)
  {
    if b == [] {
      assert a + b == a;
    } else {
      assert (a + b)[..|a + b| - 1] == a + b[..|b| - 1];
      WaitsJoin(a, b[..|b| - 1]);
    }
  }

  lemma {:induction false} NoWaits(es: seq<Event>)
    requires forall e <- es :: e.In?
    ensures Waits(es) == []
  {
    if es != [] {
      assert es[|es| - 1] in es;
      NoWaits(es[..|es| - 1]);
    }
  }

  lemma {:induction false} RouteHasNoWaits(cur: nat, target: nat)
    requires Tap.Reachable(cur, target)
    ensures forall e <- Route(cur, target) :: e.In?
    decreases Tap.Rank(cur, target)
  {
    if cur != target {
      Tap.RankDrops(cur, target);
      RouteHasNoWaits(Tap.Branch(cur, target).1, target);
    }
  }

  /** The waits so far. */
  function WaitsOf(core: Core, h0: Hw, l: Line): seq<Event> {
    Waits(Events(core, h0, l.wire.log))
  }

  /** Nor does a navigation. */
  lemma GotoWaits(core: Core, h0: Hw, l: Line, target: nat)
    requires InStep(core, h0, l) && target <= Tap.UPDATEIR
    ensures WaitsOf(core, h0, Goto(l, target)) == WaitsOf(core, h0, l)
  {
    hide Events, Route, Waits, Walk, StateOf, Pulses;
    var es := Events(core, h0, l.wire.log);
    if target == Tap.RESET {
      QuietEvents(core, h0, l.wire, TMS, true);
      PulsesWait(core, h0, Pulse(Set(l.wire, TMS, true)), 5);
      PulseWaits(core, h0, Set(l.wire, TMS, true));
    } else if !Tap.Illegal(l.tap, target) {
      GotoEvents(core, h0, l, target);
      var from := if LeavesPause(l.tap, target) then target + 1 else l.tap;
      RouteHasNoWaits(from, target);
      var way := (if LeavesPause(l.tap, target) then [In(StateOf(target + 1))] else []) + Route(from, target);
      NoWaits(way);
      WaitsJoin(es, way);
      assert [] + Route(from, target) == Route(from, target);
    }
  }

  lemma PulseWaits(core: Core, h0: Hw, w: Wire)
    ensures Waits(Events(core, h0, Pulse(w).log)) == Waits(Events(core, h0, w.log))
  {
    hide Events, Waits;
    PulseEvents(core, h0, w);
    var e := In(Tap.Next(Run(core, h0, w.log).tap, w.pins.tms));
    NoWaits([e]);
    WaitsJoin(Events(core, h0, w.log), [e]);
  }

  lemma {:induction false} PulsesWait(core: Core, h0: Hw, w: Wire, n: nat)
    ensures Waits(Events(core, h0, Pulses(w, n).log)) == Waits(Events(core, h0, w.log))
  {
    hide Events, Waits, Pulse;
    if n > 0 {
      PulsesWait(core, h0, w, n - 1);
      PulseWaits(core, h0, Pulses(w, n - 1));
    }
  }

  /** A scan, with the way to it, waits for nothing. */
  lemma ScannedWaits(device: History -> bv16, core: Core, h0: Hw, b: Bench, job: Job)
    requires b.Valid() && job.Valid() && job.n > 0 && InStep(core, h0, b.line)
    ensures WaitsOf(core, h0, Scanned(device, b, job).line) == WaitsOf(core, h0, b.line)
  {
    hide Events, Route, Goto, InStep, Waits, Shifting.Shift, Run;
    var l := Goto(b.line, job.start);
    var bits := Bytes.Bits(job.v, job.n);
    LoadLaws.ReadyToShift(core, h0, b, job);
    GotoEvents(core, h0, b.line, job.start);
    RouteHasNoWaits(b.line.tap, job.start);
    var way := Route(b.line.tap, job.start);
    NoWaits(way);
    WaitsJoin(Events(core, h0, b.line.wire.log), way);
    ScanEvents(core, h0, l.wire, bits, job.Exits());
    var scan := seq(|bits| - 1, _ => In(Run(core, h0, l.wire.log).tap)) + [In(Tap.Next(Run(core, h0, l.wire.log).tap, job.Exits()))];
    NoWaits(scan);
    WaitsJoin(Events(core, h0, l.wire.log), scan);
    Associate(Events(core, h0, l.wire.log), scan[..|bits| - 1], scan[|bits| - 1]);
  }

  lemma Associate(a: seq<Event>, b: seq<Event>, e: Event)
    ensures a + b + [e] == a + (b + [e])
  {
  }

  /** The wait after k retries: each adds a quarter. */
  function Longer(runTest: nat, k: nat): (r: nat)
    ensures runTest == 0 <==> r == 0
  {
    if k == 0 then runTest else Longer(runTest, k - 1) + Longer(runTest, k - 1) / 4
  }

  /** The waits of the first k retries. */
  function Retries(runTest: nat, k: nat): (es: seq<Event>)
    ensures |es| == if runTest == 0 then 0 else k
    ensures forall i :: 0 <= i < |es| ==> es[i] == Event.Wait(Tap.RunTestIdle, Longer(runTest, i + 1))
  {
    if runTest == 0 then [] else seq(k, i requires 0 <= i < k => Event.Wait(Tap.RunTestIdle, Longer(runTest, i + 1)))
  }

  /** Only a data shift compares, so only one is retried. */
  predicate Ordinary(job: Job) {
    (job.start == Tap.SHIFTDR || job.expected.Ignore?) && LoadLaws.EndsInColumn(job)
  }

  lemma OnceSettled(core: Core, h0: Hw, b: Bench, job: Job, retry: bool)
    requires b.Valid() && job.Valid() && InStep(core, h0, b.line) && Ordinary(job)
    requires retry ==> job.expected.Expect?
    requires b.line.tap == job.start + if job.Exits() then 1 else 0
    ensures var r := Settled(b, job, retry);
            var usec := if retry then b.runTest + b.runTest / 4 else b.runTest;
            && r.runTest == (if job.Exits() then usec else b.runTest)
            && WaitsOf(core, h0, r.line)
               == WaitsOf(core, h0, b.line) + if job.Exits() && usec > 0 then [Event.Wait(Tap.RunTestIdle, usec)] else []
  {
    hide Events, Waits, InStep, WaitIdle, Goto;
    if job.Exits() {
      if retry && b.runTest != 0 {
        OnceRetried(core, h0, b, job);
      } else {
        OnceEnded(core, h0, b, job);
      }
    }
  }

  lemma OnceRetried(core: Core, h0: Hw, b: Bench, job: Job)
    requires b.Valid() && job.Valid() && InStep(core, h0, b.line) && job.start == Tap.SHIFTDR && job.Exits()
    requires b.line.tap == Tap.EXIT1DR && b.runTest != 0
    ensures var r := Settled(b, job, true);
            && r.runTest == b.runTest + b.runTest / 4
            && WaitsOf(core, h0, r.line) == WaitsOf(core, h0, b.line) + [Event.Wait(Tap.RunTestIdle, r.runTest)]
  {
    hide Events, Waits, InStep, Settled, Retrying;
    LeavesForRetry(core, h0, b, job);
    RetryWaits(b.runTest);
    WaitsJoin(Events(core, h0, b.line.wire.log), Retrying(b.runTest));
  }

  lemma OnceEnded(core: Core, h0: Hw, b: Bench, job: Job)
    requires b.Valid() && job.Valid() && InStep(core, h0, b.line) && LoadLaws.EndsInColumn(job) && job.Exits()
    requires b.line.tap == job.start + 1
    ensures WaitsOf(core, h0, Settled(b, job, false).line)
            == WaitsOf(core, h0, b.line) + if b.runTest > 0 then [Event.Wait(Tap.RunTestIdle, b.runTest)] else []
  {
    hide Events, Waits, InStep, Settled, Leaving;
    LeavesToEnd(core, h0, b, job);
    LeavingWaits(job.start == Tap.SHIFTIR, job.end, b.runTest);
    WaitsJoin(Events(core, h0, b.line.wire.log), Leaving(job.start == Tap.SHIFTIR, job.end, b.runTest));
  }

  lemma RetryWaits(runTest: nat)
    ensures Waits(Retrying(runTest)) == [Event.Wait(Tap.RunTestIdle, runTest + runTest / 4)]
  {
    hide Waits;
    var es := Retrying(runTest);
    NoWaits(es[..6]);
    OneWait(es[6]);
    WaitsJoin(es[..6], [es[6]]);
    assert es == es[..6] + [es[6]];
  }

  lemma OneWait(e: Event)
    requires e.Wait?
    ensures Waits([e]) == [e]
  {
    assert [e][..0] == [];
  }

  lemma LeavingWaits(ir: bool, end: nat, runTest: nat)
    ensures Waits(Leaving(ir, end, runTest)) == if runTest == 0 then [] else [Event.Wait(Tap.RunTestIdle, runTest)]
  {
    hide Waits;
    var es := Leaving(ir, end, runTest);
    if runTest == 0 {
      NoWaits(es);
    } else {
      var n := |es| - 1;
      NoWaits(es[..n]);
      OneWait(es[n]);
      WaitsJoin(es[..n], [es[n]]);
      assert es == es[..n] + [es[n]];
    }
  }

  lemma {:induction false} WaitsBefore(device: History -> bv16, core: Core, h0: Hw, b: Bench, job: Job, k: nat)
    requires b.Valid() && job.Valid() && job.n > 0 && InStep(core, h0, b.line) && Ordinary(job)
    requires k > 0 ==> job.expected.Expect?
    ensures var c := Before(device, b, job, k);
            && InStep(core, h0, c.line) && c.runTest == (if job.Exits() then Longer(b.runTest, k) else b.runTest)
            && WaitsOf(core, h0, c.line) == WaitsOf(core, h0, b.line) + if job.Exits() then Retries(b.runTest, k) else []
    decreases k
  {
    hide Events, Waits, InStep, Scanned, Settled, WaitsOf;
    if k == 0 {
      BeforeStart(device, b, job);
    } else {
      WaitsBefore(device, core, h0, b, job, k - 1);
      var c := Before(device, b, job, k - 1);
      ScannedWaits(device, core, h0, c, job);
      ScannedInStep(device, core, h0, c, job);
      OnceSettled(core, h0, Scanned(device, c, job), job, true);
      SettledInStep(core, h0, Scanned(device, c, job), job, true);
      assert Before(device, b, job, k) == Settled(Scanned(device, c, job), job, true);
      OneMoreRetry(b.runTest, k);
    }
  }

  lemma OneMoreRetry(runTest: nat, k: nat)
    requires k > 0
    ensures Retries(runTest, k)
            == Retries(runTest, k - 1) + if runTest == 0 then [] else [Event.Wait(Tap.RunTestIdle, Longer(runTest, k))]
    ensures Longer(runTest, k) > 0 <==> runTest > 0
  {
  }

  /** All waits of a shift: in Run-Test/Idle, one before each retry, a quarter longer each time, and one
      of the last length at the end; none if the run-test time is zero or the scan goes on. */
  lemma ShiftWaits(device: History -> bv16, core: Core, h0: Hw, b: Bench, job: Job)
    requires b.Valid() && job.Valid() && job.n > 0 && InStep(core, h0, b.line) && Ordinary(job)
    ensures var r := Retry.Shift(device, b, job);
            WaitsOf(core, h0, r.bench.line)
            == WaitsOf(core, h0, b.line)
               + if b.runTest == 0 || !job.Exits() then []
                 else Retries(b.runTest, r.scans - 1) + [Event.Wait(Tap.RunTestIdle, Longer(b.runTest, r.scans - 1))]
  {
    hide Events, Waits, InStep, Scanned, Settled, WaitsOf, Attempts, Mismatch, Finds;
    BeforeStart(device, b, job);
    AttemptsCount(device, b, job, 0);
    var k := Retry.Shift(device, b, job).scans - 1;
    if k > 0 {
      assert !Succeeds(device, b, job, 0);
      NothingExpected(device, b, job);
    }
    WaitsBefore(device, core, h0, b, job, k);
    var c := Before(device, b, job, k);
    ScannedWaits(device, core, h0, c, job);
    ScannedInStep(device, core, h0, c, job);
    OnceSettled(core, h0, Scanned(device, c, job), job, false);
    OneMoreRetry(b.runTest, k + 1);
  }

  lemma NothingExpected(device: History -> bv16, b: Bench, job: Job)
    requires b.Valid() && job.Valid() && job.n > 0
    ensures job.expected.Ignore? ==> Succeeds(device, b, job, 0)
  {
    hide Scanned, Settled;
  }

  /** With no bits there is no shift, but a wait in Run-Test/Idle if the run-test time is not zero. */
  lemma NoBitsWaits(device: History -> bv16, core: Core, h0: Hw, b: Bench, job: Job)
    requires b.Valid() && job.Valid() && job.n == 0 && InStep(core, h0, b.line)
    ensures var r := Retry.Shift(device, b, job);
            && r.error == NoError
            && Events(core, h0, r.bench.line.wire.log)
               == Events(core, h0, b.line.wire.log)
                  + if b.runTest == 0 then [] else Route(b.line.tap, 1) + [Event.Wait(Tap.RunTestIdle, b.runTest)]
  {
    hide Events, Route, WaitIdle;
    WaitIdleEvents(core, h0, b.line, b.runTest);
  }
}
