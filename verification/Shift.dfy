/** `xsvfShift` (jtag/micro.c:798-921): scan, compare, and on a mismatch retry with a longer wait. */
module Retry {
  import opened Bytes
  import opened Errors
  import opened LenVals
  import opened Lines
  import opened Ports
  import opened Shifting
  import opened ScanLaws
  import Tap

  datatype Expected = Ignore | Expect(value: seq<byte>, mask: Mask)

  /** The fixed parameters of one call. */
  datatype Job = Job(start: nat, v: seq<byte>, n: nat, capture: bool, expected: Expected, end: nat, maxRepeat: byte) {
    /** The states the callers name and the sizes the buffers have. */
    ghost predicate Valid() {
      && Lines.Shifting(start)
      && (end == start || end == Tap.RUNTEST || end == Tap.PAUSEDR || end == Tap.PAUSEIR)
      && n <= 8 * |v| && |v| <= MAX_LEN
      && (expected.Expect? ==> capture && |expected.value| <= MAX_LEN)
      && (expected.Expect? && expected.mask.Under? ==> |expected.mask.bytes| == MAX_LEN + 1)
    }

    predicate Exits() {
      start != end
    }
  }

  /** What changes from attempt to attempt. */
  datatype Bench = Bench(line: Line, captured: seq<byte>, runTest: nat) {
    ghost predicate Valid() {
      line.tap <= Tap.UPDATEIR && |captured| == MAX_LEN + 1
    }
  }

  /** The bytes of a capture buffer nobody asked for. */
  function NoBuffer(): (s: seq<byte>)
    ensures |s| == MAX_LEN + 1
  {
    seq<byte>(MAX_LEN + 1, _ => 0)
  }

  datatype Out = Out(bench: Bench, error: Error, scans: nat)

  /** One scan: go to the shift state, shift, capture. */
  function Scanned(device: History -> bv16, b: Bench, job: Job): (r: Bench)
    requires b.Valid() && job.Valid() && job.n > 0
    ensures r.Valid()
  {
    var l := Goto(b.line, job.start);
    var bits := Bits(job.v, job.n);
    Bench(ShiftLine(l, bits, job.Exits()),
          if job.capture then Captured(b.captured, |job.v|, Samples(device, l.wire, bits, job.Exits())) else b.captured,
          b.runTest)
  }

  /** The comparison after a scan. */
  predicate Mismatch(b: Bench, job: Job)
    requires b.Valid() && job.Valid()
  {
    job.expected.Expect? && !Matches(job.expected.value, b.captured, job.expected.mask)
  }

  function WaitIdle(l: Line, runTest: nat): Line
    requires l.tap <= Tap.UPDATEIR
  {
    if runTest == 0 then l
    else
      var idle := Goto(l, Tap.RUNTEST);
      Line(Wait(idle.wire, runTest), idle.tap)
  }

  /** What follows a scan that exits: before a retry, one more pass through Pause-DR and a wait
      a quarter longer; otherwise on to the end state. */
  function Settled(b: Bench, job: Job, retry: bool): (r: Bench)
    requires b.Valid() && job.Valid()
    ensures r.Valid()
  {
    if !job.Exits() then b
    else if retry && b.runTest != 0 then
      var longer := b.runTest + b.runTest / 4;
      b.(line := WaitIdle(Goto(Goto(b.line, Tap.PAUSEDR), Tap.SHIFTDR), longer), runTest := longer)
    else b.(line := WaitIdle(Goto(b.line, job.end), b.runTest))
  }

  /** The code returned after the last attempt: the repeat counter is an unsigned char that has been
      incremented once more. */
  function FinalError(mismatch: bool, repeat: nat, maxRepeat: byte): Error {
    if !mismatch then NoError
    else if maxRepeat != 0 && ToByte(repeat + 1) > maxRepeat then MaxRetries
    else TdoMismatch
  }

  /** The loop, from the attempt numbered `repeat`. */
  function Attempts(device: History -> bv16, b: Bench, job: Job, repeat: nat): (r: Out)
    requires b.Valid() && job.Valid() && job.n > 0 && repeat <= job.maxRepeat
    ensures r.bench.Valid() && r.scans > repeat
    decreases job.maxRepeat - repeat
  {
    var s := Scanned(device, b, job);
    var bad := Mismatch(s, job);
    if bad && repeat < job.maxRepeat then Attempts(device, Settled(s, job, true), job, repeat + 1)
    else Out(Settled(s, job, false), FinalError(bad, repeat, job.maxRepeat), repeat + 1)
  }

  function Shift(device: History -> bv16, b: Bench, job: Job): (r: Out)
    requires b.Valid() && job.Valid()
    ensures r.bench.Valid() && (job.n > 0 ==> r.scans > 0)
  {
    if job.n == 0 then Out(b.(line := WaitIdle(b.line, b.runTest)), NoError, 0)
    else Attempts(device, b, job, 0)
  }

  // ----- laws -----

  /** The bench before attempt k, every earlier one having been retried. */
  function Before(device: History -> bv16, b: Bench, job: Job, k: nat): (r: Bench)
    requires b.Valid() && job.Valid() && job.n > 0
    ensures r.Valid()
    decreases k
  {
    if k == 0 then b else Settled(Scanned(device, Before(device, b, job, k - 1), job), job, true)
  }

  /** The capture buffer after the scan of attempt k. */
  function CapturedBy(device: History -> bv16, b: Bench, job: Job, k: nat): (got: seq<byte>)
    requires b.Valid() && job.Valid() && job.n > 0
    ensures |got| == MAX_LEN + 1
  {
    Scanned(device, Before(device, b, job, k), job).captured
  }

  /** Every expected bit that counts under the mask is the same in what was captured. */
  ghost predicate Finds(e: Expected, got: seq<byte>)
    requires e.Expect? ==> |e.value| <= |got| && (e.mask.Under? ==> |e.value| <= |e.mask.bytes|)
  {
    e.Expect? ==>
      forall k, i: nat :: 0 <= k < |e.value| && i < 8 && Compared(e.mask, k, i) ==> Bit(e.value[k], i) == Bit(got[k], i)
  }

  /** Attempt k finds the expected bits. */
  ghost predicate Succeeds(device: History -> bv16, b: Bench, job: Job, k: nat)
    requires b.Valid() && job.Valid() && job.n > 0
  {
    Finds(job.expected, CapturedBy(device, b, job, k))
  }

  /** The comparison fails exactly if some bit that counts differs. */
  lemma MismatchMeans(b: Bench, job: Job)
    requires b.Valid() && job.Valid()
    ensures Mismatch(b, job) <==> !Finds(job.expected, b.captured)
  {
    hide Bit, Matches;
    if job.expected.Expect? {
      MatchesMeans(job.expected.value, b.captured, job.expected.mask);
    }
  }

  lemma {:induction false} AttemptsCount(device: History -> bv16, b: Bench, job: Job, repeat: nat)
    requires b.Valid() && job.Valid() && job.n > 0 && repeat <= job.maxRepeat
    ensures var r := Attempts(device, Before(device, b, job, repeat), job, repeat);
            var last := r.scans - 1;
            && repeat <= last <= job.maxRepeat
            && (forall k :: repeat <= k < last ==> !Succeeds(device, b, job, k))
            && (last < job.maxRepeat ==> Succeeds(device, b, job, last))
            && r.error == FinalError(!Succeeds(device, b, job, last), last, job.maxRepeat)
            && r.bench == Settled(Scanned(device, Before(device, b, job, last), job), job, false)
    decreases job.maxRepeat - repeat
  {
    hide Scanned, Settled, Mismatch, Finds, FinalError;
    var s := Scanned(device, Before(device, b, job, repeat), job);
    MismatchMeans(s, job);
    if Mismatch(s, job) && repeat < job.maxRepeat {
      assert Before(device, b, job, repeat + 1) == Settled(s, job, true);
      AttemptsCount(device, b, job, repeat + 1);
    }
  }

  /** Against any device: the scans stop at the first attempt that succeeds, or after
      ucMaxRepeat + 1 of them; the code is NONE exactly when some attempt succeeded, and otherwise
      says "retries exhausted" exactly for 1..254 — at 255 the counter has wrapped to zero. */
  lemma RetryLaw(device: History -> bv16, b: Bench, job: Job)
    requires b.Valid() && job.Valid() && job.n > 0
    ensures var r := Shift(device, b, job);
            && 1 <= r.scans <= job.maxRepeat + 1
            && (forall k :: 0 <= k < r.scans - 1 ==> !Succeeds(device, b, job, k))
            && (r.scans <= job.maxRepeat ==> Succeeds(device, b, job, r.scans - 1))
            && (r.error == NoError <==> exists k :: 0 <= k <= job.maxRepeat && Succeeds(device, b, job, k))
            && (r.error == MaxRetries <==> r.error != NoError && 1 <= job.maxRepeat <= 254)
            && (r.error == TdoMismatch <==> r.error != NoError && (job.maxRepeat == 0 || job.maxRepeat == 255))
  {
    hide Attempts, Succeeds, FinalError, Before, Scanned, Settled;
    assert Before(device, b, job, 0) == b by {
      BeforeStart(device, b, job);
    }
    AttemptsCount(device, b, job, 0);
    var last := Shift(device, b, job).scans - 1;
    FinalErrorMeans(!Succeeds(device, b, job, last), last, job.maxRepeat);
  }

  lemma BeforeStart(device: History -> bv16, b: Bench, job: Job)
    requires b.Valid() && job.Valid() && job.n > 0
    ensures Before(device, b, job, 0) == b
  {
  }

  lemma FinalErrorMeans(mismatch: bool, repeat: nat, maxRepeat: byte)
    requires repeat <= maxRepeat && (mismatch ==> repeat == maxRepeat)
    ensures var e := FinalError(mismatch, repeat, maxRepeat);
            && (e == NoError <==> !mismatch)
            && (e == MaxRetries <==> mismatch && 1 <= maxRepeat <= 254)
            && (e == TdoMismatch <==> mismatch && (maxRepeat == 0 || maxRepeat == 255))
  {
  }

  /** Where a shift leaves the TAP: one that exits ends in Run-Test/Idle if there is a wait and in the
      end state otherwise; one that does not stays in the shift state. */
  lemma ShiftEndsIn(device: History -> bv16, core: Hardware.Core, h0: Hardware.Hw, b: Bench, job: Job)
    requires b.Valid() && job.Valid() && InStep(core, h0, b.line)
    ensures var r := Shift(device, b, job).bench;
            && InStep(core, h0, r.line)
            && (job.n > 0 && job.Exits() ==> r.line.tap == if b.runTest != 0 then Tap.RUNTEST else job.end)
            && (job.n > 0 && !job.Exits() ==> r.line.tap == job.start)
            && (job.n == 0 ==> r.line.tap == if b.runTest != 0 then Tap.RUNTEST else b.line.tap)
            && (b.runTest == 0 <==> r.runTest == 0)
  {
    if job.n == 0 {
      WaitIdleInStep(core, h0, b.line, b.runTest);
    } else {
      AttemptsEndIn(device, core, h0, b, job, 0);
    }
  }

  lemma WaitIdleInStep(core: Hardware.Core, h0: Hardware.Hw, l: Line, runTest: nat)
    requires InStep(core, h0, l)
    ensures InStep(core, h0, WaitIdle(l, runTest))
    ensures WaitIdle(l, runTest).tap == if runTest == 0 then l.tap else Tap.RUNTEST
  {
    hide Goto;
    if runTest != 0 {
      GotoInStep(core, h0, l, Tap.RUNTEST);
      Hardware.QuietWait(core, h0, Goto(l, Tap.RUNTEST).wire, runTest);
    }
  }

  lemma ScannedInStep(device: History -> bv16, core: Hardware.Core, h0: Hardware.Hw, b: Bench, job: Job)
    requires b.Valid() && job.Valid() && job.n > 0 && InStep(core, h0, b.line)
    ensures var s := Scanned(device, b, job);
            && InStep(core, h0, s.line) && s.runTest == b.runTest
            && s.line.tap == job.start + if job.Exits() then 1 else 0
  {
    hide Goto, InStep;
    GotoInStep(core, h0, b.line, job.start);
    ShiftInStep(core, h0, Goto(b.line, job.start), Bits(job.v, job.n), job.Exits());
  }

  lemma SettledInStep(core: Hardware.Core, h0: Hardware.Hw, b: Bench, job: Job, retry: bool)
    requires b.Valid() && job.Valid() && InStep(core, h0, b.line)
    ensures var s := Settled(b, job, retry);
            && InStep(core, h0, s.line) && (s.runTest == 0 <==> b.runTest == 0)
            && (!job.Exits() ==> s == b)
            && (job.Exits() && !retry ==> s.line.tap == if b.runTest != 0 then Tap.RUNTEST else job.end)
  {
    hide Goto, InStep, WaitIdle;
    if job.Exits() {
      if retry && b.runTest != 0 {
        GotoInStep(core, h0, b.line, Tap.PAUSEDR);
        GotoInStep(core, h0, Goto(b.line, Tap.PAUSEDR), Tap.SHIFTDR);
        WaitIdleInStep(core, h0, Goto(Goto(b.line, Tap.PAUSEDR), Tap.SHIFTDR), b.runTest + b.runTest / 4);
      } else {
        GotoInStep(core, h0, b.line, job.end);
        WaitIdleInStep(core, h0, Goto(b.line, job.end), b.runTest);
      }
    }
  }

  lemma {:induction false} AttemptsEndIn(device: History -> bv16, core: Hardware.Core, h0: Hardware.Hw, b: Bench, job: Job, repeat: nat)
    requires b.Valid() && job.Valid() && job.n > 0 && repeat <= job.maxRepeat && InStep(core, h0, b.line)
    ensures var r := Attempts(device, b, job, repeat).bench;
            && InStep(core, h0, r.line)
            && (job.Exits() ==> r.line.tap == if b.runTest != 0 then Tap.RUNTEST else job.end)
            && (!job.Exits() ==> r.line.tap == job.start)
            && (b.runTest == 0 <==> r.runTest == 0)
    decreases job.maxRepeat - repeat
  {
    hide Scanned, Settled, InStep;
    var s := Scanned(device, b, job);
    ScannedInStep(device, core, h0, b, job);
    SettledInStep(core, h0, s, job, true);
    SettledInStep(core, h0, s, job, false);
    if Mismatch(s, job) && repeat < job.maxRepeat {
      AttemptsEndIn(device, core, h0, Settled(s, job, true), job, repeat + 1);
    }
  }
}
