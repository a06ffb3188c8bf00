/** End to end: what one shift of the player, with its navigation, retries and waits, leaves in conforming
    hardware and brings back from it (jtag/micro.c:492-921). */
module LoadLaws {
  import opened Bytes
  import opened Hardware
  import opened Lines
  import opened Ports
  import opened Retry
  import opened ScanLaws
  import opened Shifting
  import Tap

  /** The two scan registers hold the same, and nothing was captured. */
  ghost predicate SameRegisters(g: Hw, h: Hw) {
    g.dr == h.dr && g.ir == h.ir && g.captures == h.captures
  }

  /** States in which a rising edge leaves the scan registers alone. */
  predicate Quiet(tap: nat) {
    tap != Tap.CAPTUREDR && tap != Tap.SHIFTDR && tap != Tap.CAPTUREIR && tap != Tap.SHIFTIR
  }

  /** Ways out of a scan: to Run-Test/Idle, or to the pause state of the column. */
  predicate Outward(tap: nat, target: nat) {
    || (target == Tap.RUNTEST && (tap == Tap.RUNTEST || Tap.EXIT1DR <= tap <= Tap.UPDATEDR || Tap.EXIT1IR <= tap <= Tap.UPDATEIR))
    || (target == Tap.PAUSEDR && (tap == Tap.EXIT1DR || tap == Tap.PAUSEDR))
    || (target == Tap.PAUSEIR && (tap == Tap.EXIT1IR || tap == Tap.PAUSEIR))
  }

  /** They stay outward all the way, through quiet states only. */
  lemma OutwardStays(tap: nat, target: nat)
    requires Outward(tap, target) && tap != target
    ensures Quiet(tap) && Outward(Tap.Branch(tap, target).1, target) && !Tap.Illegal(tap, target)
  {
  }

  lemma QuietStep(core: Core, h0: Hw, l: Line, tms: bool, next: nat)
    requires InStep(core, h0, l) && Quiet(l.tap)
    ensures SameRegisters(Run(core, h0, l.wire.log), Run(core, h0, Step(l, tms, next).wire.log))
  {
    var w := Set(l.wire, TMS, tms);
    QuietWrite(core, h0, l.wire, TMS, tms);
    PulseReacts(core, h0, w);
  }

  lemma {:induction false} OutwardWalk(core: Core, h0: Hw, l: Line, target: nat)
    requires InStep(core, h0, l) && Outward(l.tap, target) && Tap.Reachable(l.tap, target)
    ensures SameRegisters(Run(core, h0, l.wire.log), Run(core, h0, Walk(l, target).wire.log))
    decreases Tap.Rank(l.tap, target)
  {
    hide Pulse, React;
    if l.tap != target {
      OutwardStays(l.tap, target);
      Tap.RankDrops(l.tap, target);
      var (tms, next) := Tap.Branch(l.tap, target);
      Tap.BranchIsNext(Run(core, h0, l.wire.log).tap, target);
      StepInStep(core, h0, l, tms);
      QuietStep(core, h0, l, tms, next);
      OutwardWalk(core, h0, Step(l, tms, next), target);
    }
  }

  /** Leaving a scan, and the wait in Run-Test/Idle, keep what was shifted. */
  lemma LeavingKeeps(core: Core, h0: Hw, l: Line, end: nat, runTest: nat)
    requires InStep(core, h0, l) && Outward(l.tap, end) && (l.tap == Tap.EXIT1DR || l.tap == Tap.EXIT1IR)
    ensures SameRegisters(Run(core, h0, l.wire.log), Run(core, h0, WaitIdle(Goto(l, end), runTest).wire.log))
  {
    hide Walk, Step, InStep;
    OutwardWalk(core, h0, l, end);
    GotoInStep(core, h0, l, end);
    var m := Goto(l, end);
    if runTest != 0 {
      OutwardWalk(core, h0, m, Tap.RUNTEST);
      QuietWait(core, h0, Goto(m, Tap.RUNTEST).wire, runTest);
    }
  }

  /** The register a job shifts through. */
  function Target(job: Job, h: Hw): seq<bool> {
    if job.start == Tap.SHIFTIR then h.ir else h.dr
  }

  /** The hardware as the shift itself begins. */
  ghost function AtShift(core: Core, h0: Hw, b: Bench, job: Job): Hw
    requires b.Valid() && job.Valid()
  {
    Run(core, h0, Goto(b.line, job.start).wire.log)
  }

  /** The job ends in its own column, as all callers ask. */
  predicate EndsInColumn(job: Job) {
    || !job.Exits() || job.end == Tap.RUNTEST
    || job.end == if job.start == Tap.SHIFTIR then Tap.PAUSEIR else Tap.PAUSEDR
  }

  lemma ReadyToShift(core: Core, h0: Hw, b: Bench, job: Job)
    requires b.Valid() && job.Valid() && InStep(core, h0, b.line)
    ensures Ready(core, h0, Goto(b.line, job.start).wire) && Goto(b.line, job.start).tap == job.start
    ensures AtShift(core, h0, b, job).tap == if job.start == Tap.SHIFTIR then Tap.ShiftIR else Tap.ShiftDR
  {
    hide Goto;
    GotoInStep(core, h0, b.line, job.start);
  }

  /** One attempt: through a register of n bits, the value shifted is what the register holds once the
      player has moved on, and what it held is what was captured, unused top bits zero. */
  lemma ScanLoads(device: History -> bv16, core: Core, h0: Hw, b: Bench, job: Job)
    requires b.Valid() && job.Valid() && job.n > 0 && EndsInColumn(job) && InStep(core, h0, b.line)
    requires |Target(job, AtShift(core, h0, b, job))| == job.n
    ensures var after := Run(core, h0, Settled(Scanned(device, b, job), job, false).line.wire.log);
            Target(job, after) == Bits(job.v, job.n)
    ensures Conforms(device, core, h0) && job.capture && 8 * |job.v| < job.n + 8 ==>
              var got := Settled(Scanned(device, b, job), job, false).captured[..|job.v|];
              && Bits(got, job.n) == Target(job, AtShift(core, h0, b, job))
              && forall k :: job.n <= k < 8 * |job.v| ==> !BitOf(got, k)
  {
    hide Goto, Shifting.Shift, Samples, Captured, Bits, BitOf, WaitIdle, Conforms;
    var l := Goto(b.line, job.start);
    var bits := Bits(job.v, job.n);
    ReadyToShift(core, h0, b, job);
    ShiftRuns(core, h0, l.wire, bits, job.Exits());
    ThroughFull(Target(job, AtShift(core, h0, b, job)), bits);
    var shifted := Run(core, h0, Shifting.Shift(l.wire, bits, job.Exits()).log);
    assert Selected(shifted) == bits;
    assert Target(job, shifted) == bits;
    if job.Exits() {
      ScannedInStep(device, core, h0, b, job);
      LeavingKeeps(core, h0, ShiftLine(l, bits, true), job.end, b.runTest);
    }
    if Conforms(device, core, h0) && job.capture && 8 * |job.v| < job.n + 8 {
      ScanExchanges(device, core, h0, l.wire, job.v, job.n, job.Exits(), b.captured);
    }
  }

  lemma {:induction false} BeforeInStep(device: History -> bv16, core: Core, h0: Hw, b: Bench, job: Job, k: nat)
    requires b.Valid() && job.Valid() && job.n > 0 && InStep(core, h0, b.line)
    ensures InStep(core, h0, Before(device, b, job, k).line)
    decreases k
  {
    hide InStep, Scanned, Settled;
    if k > 0 {
      BeforeInStep(device, core, h0, b, job, k - 1);
      var c := Before(device, b, job, k - 1);
      ScannedInStep(device, core, h0, c, job);
      SettledInStep(core, h0, Scanned(device, c, job), job, true);
    }
  }

  /** The whole of `xsvfShift`, however often it retried: its last attempt's value is in the register. */
  lemma ShiftLoads(device: History -> bv16, core: Core, h0: Hw, b: Bench, job: Job)
    requires b.Valid() && job.Valid() && job.n > 0 && EndsInColumn(job) && InStep(core, h0, b.line)
    ensures var r := Retry.Shift(device, b, job);
            var last := Before(device, b, job, r.scans - 1);
            |Target(job, AtShift(core, h0, last, job))| == job.n ==>
              && Target(job, Run(core, h0, r.bench.line.wire.log)) == Bits(job.v, job.n)
              && (Conforms(device, core, h0) && job.capture && 8 * |job.v| < job.n + 8 ==>
                    Bits(r.bench.captured[..|job.v|], job.n) == Target(job, AtShift(core, h0, last, job)))
  {
    hide InStep, Scanned, Settled, Mismatch, FinalError, Attempts, Goto, Before, Conforms;
    BeforeStart(device, b, job);
    AttemptsCount(device, b, job, 0);
    var k := Retry.Shift(device, b, job).scans - 1;
    BeforeInStep(device, core, h0, b, job, k);
    var last := Before(device, b, job, k);
    if |Target(job, AtShift(core, h0, last, job))| == job.n {
      ScanLoads(device, core, h0, last, job);
    }
  }
}
