/** The imperative `xsvfShift`, against the specification in module Retry. */
module RetryOps {
  import opened Bytes
  import opened Errors
  import opened LenVals
  import opened Lines
  import opened Navigate
  import opened Ports
  import opened Retry
  import opened ShiftingOps
  import Shifting
  import Tap

  ghost function JobOf(start: nat, n: nat, tdi: LenVal, captured: LenVal?, expected: LenVal?, mask: LenVal?,
                       end: nat, maxRepeat: byte): Job
    requires tdi.Valid() && (expected != null ==> expected.Valid())
    reads tdi, tdi.val, expected, mask
    reads if expected == null then {} else {expected.val}, if mask == null then {} else {mask.val}
  {
    Job(start, tdi.View(), n, captured != null,
        if expected == null then Ignore else Expect(expected.View(), MaskOf(mask)), end, maxRepeat)
  }

  /** The capture buffer's whole contents; without one, bytes nothing looks at. */
  ghost function BufferOf(captured: LenVal?): (s: seq<byte>)
    requires captured != null ==> captured.Valid()
    reads captured, if captured == null then {} else {captured.val}
    ensures |s| == MAX_LEN + 1
  {
    if captured == null then NoBuffer() else captured.val[..]
  }

  /** The buffers of a call: valid, and the capture buffer none of the others. */
  ghost predicate Separate(tdi: LenVal, captured: LenVal?, expected: LenVal?, mask: LenVal?)
    reads tdi, captured, expected, mask
  {
    && tdi.Valid() && (captured != null ==> captured.Valid())
    && (expected != null ==> captured != null && expected.Valid()) && (mask != null ==> mask.Valid())
    && (captured != null ==>
          && captured != tdi && captured != expected && captured != mask && captured.val != tdi.val
          && (expected != null ==> captured.val != expected.val) && (mask != null ==> captured.val != mask.val))
  }

  /** Go to the start state and shift. */
  method Scan(port: Port, tap: nat, start: nat, numBits: nat, tdi: LenVal, captured: LenVal?, end: nat, ghost job: Job,
              ghost b: Bench)
    returns (r: nat)
    requires port.Valid() && Separate(tdi, captured, null, null)
    requires job.Valid() && b.Valid() && 0 < numBits == job.n && job.start == start && job.end == end
    requires job.v == tdi.View() && job.capture == (captured != null)
    requires b.line == Line(port.wire, tap) && b.captured == BufferOf(captured)
    modifies port, captured, if captured == null then {} else {captured.val}
    ensures port.Valid() && (captured != null ==> captured.Valid() && captured.len == tdi.len)
    ensures Scanned(port.device, b, job) == Bench(Line(port.wire, r), BufferOf(captured), b.runTest)
  {
    hide Goto, Shifting.Shift, Shifting.Samples, Shifting.Captured, Bits;
    var error;
    r, error := GotoTapState(port, tap, start);
    ShiftOnly(port, numBits, tdi, captured, start != end);
    if start != end {
      r := r + 1;
    }
  }

  /** Compare what was captured, if anything is expected. */
  method Compare(captured: LenVal?, expected: LenVal?, mask: LenVal?, ghost b: Bench, ghost job: Job)
    returns (mismatch: bool)
    requires captured != null ==> captured.Valid()
    requires job.Valid() && b.Valid() && b.captured == BufferOf(captured)
    requires expected != null ==> captured != null && expected.Valid()
    requires mask != null ==> mask.Valid()
    requires job.expected == if expected == null then Ignore else Expect(expected.View(), MaskOf(mask))
    ensures mismatch == Mismatch(b, job)
  {
    mismatch := false;
    if expected != null {
      var equal := EqualLenVal(expected, captured, mask);
      mismatch := !equal;
    }
  }

  /** What follows a scan that exits the shift state. */
  method Settle(port: Port, tap: nat, start: nat, end: nat, runTest: nat, retry: bool, ghost b: Bench, ghost job: Job)
    returns (r: nat, rt: nat)
    requires port.Valid() && job.Valid() && b.Valid() && job.start == start && job.end == end
    requires b.line == Line(port.wire, tap) && b.runTest == runTest
    modifies port
    ensures port.Valid() && Settled(b, job, retry) == Bench(Line(port.wire, r), b.captured, rt)
  {
    hide Goto;
    r, rt := tap, runTest;
    if start != end {
      var error;
      if retry && runTest != 0 {
        r, error := GotoTapState(port, r, Tap.PAUSEDR);
        r, error := GotoTapState(port, r, Tap.SHIFTDR);
        rt := runTest + runTest / 4;
      } else {
        r, error := GotoTapState(port, r, end);
      }
      if rt != 0 {
        r, error := GotoTapState(port, r, Tap.RUNTEST);
        port.WaitTime(rt);
      }
    }
  }

  /** One pass of the loop. */
  method Attempt(port: Port, tap: nat, start: nat, numBits: nat, tdi: LenVal, captured: LenVal?, expected: LenVal?,
                 mask: LenVal?, end: nat, runTest: nat, mayRetry: bool, ghost b: Bench, ghost job: Job)
    returns (r: nat, rt: nat, mismatch: bool)
    requires port.Valid() && Separate(tdi, captured, expected, mask) && job.Valid() && b.Valid() && numBits > 0
    requires job == JobOf(start, numBits, tdi, captured, expected, mask, end, job.maxRepeat)
    requires b == Bench(Line(port.wire, tap), BufferOf(captured), runTest)
    modifies port, captured, if captured == null then {} else {captured.val}
    ensures port.Valid() && Separate(tdi, captured, expected, mask) && (captured != null ==> captured.len == tdi.len)
    ensures job == JobOf(start, numBits, tdi, captured, expected, mask, end, job.maxRepeat)
    ensures mismatch == Mismatch(Scanned(port.device, b, job), job)
    ensures Settled(Scanned(port.device, b, job), job, mismatch && mayRetry) == Bench(Line(port.wire, r), BufferOf(captured), rt)
  {
    hide Scanned, Settled, Mismatch, Job.Valid, BufferOf;
    r := Scan(port, tap, start, numBits, tdi, captured, end, job, b);
    ghost var s := Scanned(port.device, b, job);
    mismatch := Compare(captured, expected, mask, s, job);
    r, rt := Settle(port, r, start, end, runTest, mismatch && mayRetry, s, job);
  }

  method Shift(port: Port, tap: nat, start: nat, numBits: nat, tdi: LenVal, captured: LenVal?, expected: LenVal?,
               mask: LenVal?, end: nat, runTest: nat, maxRepeat: byte)
    returns (r: nat, error: Error)
    requires port.Valid() && Separate(tdi, captured, expected, mask) && tap <= Tap.UPDATEIR
    requires JobOf(start, numBits, tdi, captured, expected, mask, end, maxRepeat).Valid()
    modifies port, captured, if captured == null then {} else {captured.val}
    ensures port.Valid() && (captured != null ==> captured.Valid())
    ensures captured != null ==> captured.len == if numBits == 0 then old(captured.len) else tdi.len
    ensures var job := JobOf(start, numBits, tdi, captured, expected, mask, end, maxRepeat);
            var o := Retry.Shift(port.device, Bench(Line(old(port.wire), tap), old(BufferOf(captured)), runTest), job);
            && o.bench.line == Line(port.wire, r) && o.bench.captured == BufferOf(captured) && o.error == error
  {
    hide Goto, Job.Valid, BufferOf, MaskOf, Attempts, Wait;
    error, r := NoError, tap;
    if numBits == 0 {
      if runTest != 0 {
        r, error := GotoTapState(port, r, Tap.RUNTEST);
        port.WaitTime(runTest);
      }
    } else {
      r, error := Repeat(port, tap, start, numBits, tdi, captured, expected, mask, end, runTest, maxRepeat);
    }
  }

  /** The do-while loop over the attempts. */
  method Repeat(port: Port, tap: nat, start: nat, numBits: nat, tdi: LenVal, captured: LenVal?, expected: LenVal?,
                mask: LenVal?, end: nat, runTest: nat, maxRepeat: byte)
    returns (r: nat, error: Error)
    requires port.Valid() && Separate(tdi, captured, expected, mask) && tap <= Tap.UPDATEIR && numBits > 0
    requires JobOf(start, numBits, tdi, captured, expected, mask, end, maxRepeat).Valid()
    modifies port, captured, if captured == null then {} else {captured.val}
    ensures port.Valid() && (captured != null ==> captured.Valid() && captured.len == tdi.len)
    ensures var job := JobOf(start, numBits, tdi, captured, expected, mask, end, maxRepeat);
            var o := Attempts(port.device, Bench(Line(old(port.wire), tap), old(BufferOf(captured)), runTest), job, 0);
            && o.bench.line == Line(port.wire, r) && o.bench.captured == BufferOf(captured) && o.error == error
  {
    hide Scanned, Settled, Mismatch, Job.Valid, BufferOf, MaskOf, FinalError;
    ghost var job := JobOf(start, numBits, tdi, captured, expected, mask, end, maxRepeat);
    ghost var b := Bench(Line(port.wire, tap), BufferOf(captured), runTest);
    ghost var goal := Attempts(port.device, b, job, 0);
    r := tap;
    var rt, mismatch, again := runTest, false, true;
    var repeat: byte := 0;
    ghost var made: nat := 0;
    while again
      invariant port.Valid() && Separate(tdi, captured, expected, mask) && b.Valid()
      invariant job == JobOf(start, numBits, tdi, captured, expected, mask, end, maxRepeat)
      invariant b == Bench(Line(port.wire, r), BufferOf(captured), rt)
      invariant again ==> made == repeat <= maxRepeat && Attempts(port.device, b, job, made) == goal
      invariant !again ==> captured != null ==> captured.len == tdi.len
      invariant !again ==> goal.bench == b && goal.error == FinalError(mismatch, made, maxRepeat)
      invariant !again && mismatch ==> repeat == ToByte(made + 1)
      decreases again, maxRepeat as int - repeat as int
    {
      var mayRetry := repeat < maxRepeat;
      r, rt, mismatch := Attempt(port, r, start, numBits, tdi, captured, expected, mask, end, rt, mayRetry, b, job);
      again := mismatch && mayRetry;
      b := Settled(Scanned(port.device, b, job), job, again);
      if mismatch {
        repeat := ToByte(repeat + 1);
      }
      if again {
        made := made + 1;
      }
    }
    error := ErrorOf(mismatch, repeat, maxRepeat, made);
  }

  method ErrorOf(mismatch: bool, repeat: byte, maxRepeat: byte, ghost made: nat) returns (error: Error)
    requires mismatch ==> repeat == ToByte(made + 1)
    ensures error == FinalError(mismatch, made, maxRepeat)
  {
    error := NoError;
    if mismatch {
      if maxRepeat != 0 && repeat > maxRepeat {
        error := MaxRetries;
      } else {
        error := TdoMismatch;
      }
    }
  }
}
