/** What holds of the player on every stream, every device and every initial hardware state. */
module PlayerLaws {
  import opened Bytes
  import opened Commands
  import opened Errors
  import opened LenVals
  import opened Lines
  import opened LoadLaws
  import opened PlayerSpec
  import opened Ports
  import opened Retry
  import opened Source
  import Hardware
  import Tap

  lemma PlayDRTracks(s: Snap, data: seq<byte>, device: History -> bv16, compare: bool, masked: bool, end: nat,
                     runTest: nat, repeats: byte)
    requires s.Valid(data) && s.error == NoError && s.Sized() && (end == s.endDR || end == Tap.SHIFTDR)
    ensures Tracks(s.line, PlayDR(s, data, device, compare, masked, end, runTest, repeats).line)
  {
    hide InStep, Retry.Shift;
    ShiftTracks(device, Bench(s.line, if compare then s.captured.buf else NoBuffer(), runTest),
                DrJob(s, compare, masked, end, repeats));
  }

  lemma PlayIRTracks(s: Snap, data: seq<byte>, device: History -> bv16, bits: nat)
    requires s.Valid(data) && s.error == NoError && bits <= 8 * s.tdi.len
    ensures Tracks(s.line, PlayIR(s, data, device, bits).line)
  {
    hide InStep, Retry.Shift;
    ShiftTracks(device, Bench(s.line, NoBuffer(), s.runTest), IrJob(s, bits));
  }

  lemma {:induction false} IncLoopTracks(s: Snap, data: seq<byte>, device: History -> bv16, times: nat)
    requires s.Valid(data) && (s.error == NoError ==> s.Sized()) && PieceLen(s.dataMask.View()) <= MAX_LEN
    ensures Tracks(s.line, IncLoop(s, data, device, times).line)
    decreases times
  {
    hide InStep, PlayDR;
    if s.error == NoError && times != 0 {
      var t := NextPiece(s, data);
      var u := PlayDR(t, data, device, true, true, t.endDR, t.runTest, t.maxRepeat);
      PlayDRTracks(t, data, device, true, true, t.endDR, t.runTest, t.maxRepeat);
      PlayDRKeeps(t, data, device, true, true, t.endDR, t.runTest, t.maxRepeat);
      IncLoopTracks(u, data, device, times - 1);
    }
  }

  /** A data shift changes nothing but the line, the captured value and the error code. */
  lemma PlayDRKeeps(s: Snap, data: seq<byte>, device: History -> bv16, compare: bool, masked: bool, end: nat,
                    runTest: nat, repeats: byte)
    requires s.Valid(data) && s.error == NoError && s.Sized() && (end == s.endDR || end == Tap.SHIFTDR)
    ensures var r := PlayDR(s, data, device, compare, masked, end, runTest, repeats);
            r == s.(line := r.line, captured := r.captured, error := r.error)
  {
    hide Retry.Shift;
  }

  lemma XSDRTracks(s: Snap, data: seq<byte>, device: History -> bv16)
    requires s.Valid(data) && s.error == NoError
    ensures Tracks(s.line, XSDR(s, data, device).line)
    ensures XSDR(s, data, device).dataMask == s.dataMask && (s.Fits() ==> XSDR(s, data, device).Sized())
  {
    hide InStep, PlayDR;
    if s.Fits() {
      var t := LoadTdi(s, data, s.bytes);
      PlayDRTracks(t, data, device, true, true, s.endDR, s.runTest, s.maxRepeat);
      PlayDRKeeps(t, data, device, true, true, s.endDR, s.runTest, s.maxRepeat);
    }
  }

  lemma XSDRINCTracks(s: Snap, data: seq<byte>, device: History -> bv16)
    requires s.Valid(data) && s.error == NoError
    ensures Tracks(s.line, XSDRINC(s, data, device).line) && XSDRINC(s, data, device).pos >= s.pos
  {
    hide InStep, XSDR, WordsAfter;
    if s.Fits() {
      XSDRTracks(s, data, device);
      ShiftCommandsPos(s, data, device, false);
      WordsAfterTrack(XSDR(s, data, device), data, device);
    }
  }

  lemma WordsAfterTrack(s: Snap, data: seq<byte>, device: History -> bv16)
    requires s.Valid(data) && (s.error == NoError ==> s.Sized())
    ensures Tracks(s.line, WordsAfter(s, data, device).line) && WordsAfter(s, data, device).pos >= s.pos
  {
    hide InStep, AllPieces;
    if s.error == NoError && s.dataMask.len <= 255 {
      AllPiecesTrack(s, data, device);
    }
  }

  lemma AllPiecesTrack(s: Snap, data: seq<byte>, device: History -> bv16)
    requires s.Valid(data) && s.error == NoError && s.Sized() && s.dataMask.len <= 255
    ensures Tracks(s.line, AllPieces(s, data, device).line) && AllPieces(s, data, device).pos >= s.pos
  {
    hide InStep, IncLoop;
    IncLoopTracks(s.(pos := After(data, s.pos, 1)), data, device, At(data, s.pos));
    IncLoopPos(s.(pos := After(data, s.pos, 1)), data, device, At(data, s.pos));
  }

  lemma ShiftCommandsTrack(s: Snap, data: seq<byte>, device: History -> bv16, last: bool)
    requires s.Valid(data) && s.error == NoError
    ensures Tracks(s.line, XSIR(s, data, device).line)
    ensures Tracks(s.line, XSIR2(s, data, device).line)
    ensures Tracks(s.line, XSDRTDO(s, data, device).line)
    ensures Tracks(s.line, XSDRBCE(s, data, device, last).line)
    ensures Tracks(s.line, XSDRTDOBCE(s, data, device, last).line)
  {
    hide InStep, PlayDR, PlayIR, Value;
    var end := if last then s.endDR else Tap.SHIFTDR;
    var bits: nat := At(data, s.pos);
    PlayIRTracks(LoadTdi(s.(pos := After(data, s.pos, 1)), data, AsNumBytes(bits)), data, device, bits);
    var t := LoadTdi(s, data, 2);
    var n := Value(t.tdi.View());
    if AsNumBytes(n) <= MAX_LEN {
      PlayIRTracks(LoadTdi(t, data, AsNumBytes(n)), data, device, n);
    }
    if s.Fits() {
      PlayDRTracks(LoadBoth(s, data), data, device, true, true, s.endDR, s.runTest, s.maxRepeat);
      PlayDRTracks(LoadTdi(s, data, s.bytes), data, device, false, false, end, 0, 0);
      PlayDRTracks(LoadBoth(s, data), data, device, true, false, end, 0, 0);
    }
  }

  lemma OthersLeaveTheLine(s: Snap, data: seq<byte>, ir: bool)
    requires s.Valid(data) && s.error == NoError
    ensures s.line == XTDOMASK(s, data).line == XRUNTEST(s, data).line == XREPEAT(s, data).line
    ensures s.line == XSDRSIZE(s, data).line == XSETSDRMASKS(s, data).line == XENDXR(s, data, ir).line
    ensures s.line == XCOMMENT(s, data).line
  {
  }

  /** No command breaks the belief, whatever its operands. */
  lemma RunTracks(s: Snap, data: seq<byte>, device: History -> bv16)
    requires s.Valid(data)
    ensures Tracks(s.line, Run(s, data, device).line)
  {
    hide InStep, XSIR, XSIR2, XSDR, XSDRTDO, XSDRBCE, XSDRTDOBCE, XSDRINC, XTDOMASK, XRUNTEST, XREPEAT, XSDRSIZE,
         XSETSDRMASKS, XENDXR, XCOMMENT, XSTATE, XWAIT;
    if s.Running() {
      var t := Fetched(s, data);
      OthersLeaveTheLine(t, data, false);
      OthersLeaveTheLine(t, data, true);
      XSDRTracks(t, data, device);
      XSDRINCTracks(t, data, device);
      ShiftCommandsTrack(t, data, device, false);
      ShiftCommandsTrack(t, data, device, true);
      GotoAndWaitTrack(t, data);
    }
  }

  lemma GotoAndWaitTrack(s: Snap, data: seq<byte>)
    requires s.Valid(data) && s.error == NoError
    ensures Tracks(s.line, XSTATE(s, data).line)
    ensures Tracks(s.line, XWAIT(s, data).line)
  {
    hide InStep, Goto, WaitIn, WaitThere, Value;
    var target, w, e := At(data, s.pos), At(data, s.pos), At(data, After(data, s.pos, 1));
    if target <= Tap.UPDATEIR {
      GotoTracks(s.line, target);
    }
    var t := LoadTdi(LoadTdi(LoadTdi(s, data, 1), data, 1), data, 4);
    if w <= Tap.UPDATEIR {
      WaitThereTracks(s.line, w, Value(t.tdi.View()));
      if e <= Tap.UPDATEIR {
        WaitInTracks(s.line, w, Value(t.tdi.View()), e);
      }
    }
  }

  /** The main result: started by the reset sequence on hardware in any state, with any clock level,
      any registers and any core, after any number of commands of any stream, against any TDO
      responses, the TAP state the player tracks is the TAP state the hardware is in, and TMS is low
      whenever that is a shift state. */
  lemma {:induction false} PlayerKnowsTheTap(core: Hardware.Core, h0: Hardware.Hw, wire: Wire, s: Snap, data: seq<byte>,
                                             device: History -> bv16, n: nat)
    requires s.Valid(data) && s.line == ResetLine(Line(wire, Tap.RESET))
    ensures var l := Runs(s, data, device, n).line;
            && Tap.Code(Hardware.Run(core, h0, l.wire.log).tap) == l.tap
            && (l.tap == Tap.SHIFTDR || l.tap == Tap.SHIFTIR ==> !l.wire.pins.tms)
    ensures InStep(core, h0, Runs(s, data, device, n).line)
  {
    hide ResetLine, Run;
    if n == 0 {
      ResetSynchronises(core, h0, Line(wire, Tap.RESET));
    } else {
      PlayerKnowsTheTap(core, h0, wire, s, data, device, n - 1);
      RunTracks(Runs(s, data, device, n - 1), data, device);
    }
  }

  lemma {:induction false} IncLoopPos(s: Snap, data: seq<byte>, device: History -> bv16, times: nat)
    requires s.Valid(data) && (s.error == NoError ==> s.Sized()) && PieceLen(s.dataMask.View()) <= MAX_LEN
    ensures IncLoop(s, data, device, times).pos >= s.pos
    decreases times
  {
    hide PlayDR;
    if s.error == NoError && times != 0 {
      var t := NextPiece(s, data);
      PlayDRKeeps(t, data, device, true, true, t.endDR, t.runTest, t.maxRepeat);
      IncLoopPos(PlayDR(t, data, device, true, true, t.endDR, t.runTest, t.maxRepeat), data, device, times - 1);
    }
  }

  lemma ShiftCommandsPos(s: Snap, data: seq<byte>, device: History -> bv16, last: bool)
    requires s.Valid(data) && s.error == NoError
    ensures XSIR(s, data, device).pos >= s.pos && XSIR2(s, data, device).pos >= s.pos
    ensures XSDR(s, data, device).pos >= s.pos && XSDRTDO(s, data, device).pos >= s.pos
    ensures XSDRBCE(s, data, device, last).pos >= s.pos && XSDRTDOBCE(s, data, device, last).pos >= s.pos
  {
    hide PlayDR, PlayIR, Value, Load;
  }

  lemma OthersPos(s: Snap, data: seq<byte>, ir: bool)
    requires s.Valid(data) && s.error == NoError
    ensures XTDOMASK(s, data).pos >= s.pos && XRUNTEST(s, data).pos >= s.pos && XREPEAT(s, data).pos >= s.pos
    ensures XSDRSIZE(s, data).pos >= s.pos && XSETSDRMASKS(s, data).pos >= s.pos && XENDXR(s, data, ir).pos >= s.pos
    ensures XCOMMENT(s, data).pos >= s.pos && XSTATE(s, data).pos >= s.pos && XWAIT(s, data).pos >= s.pos
  {
    hide Value, Load, Goto, WaitIn, WaitThere, Val.View, Val.Valid;
  }

  lemma PerformPos(s: Snap, data: seq<byte>, device: History -> bv16)
    requires s.Valid(data) && s.error == NoError
    ensures Perform(s, data, device).pos >= s.pos
  {
    hide XSIR, XSIR2, XSDR, XSDRTDO, XSDRBCE, XSDRTDOBCE, XSDRINC, XTDOMASK, XRUNTEST, XREPEAT, XSDRSIZE,
         XSETSDRMASKS, XENDXR, XCOMMENT, XSTATE, XWAIT;
    ShiftCommandsPos(s, data, device, false);
    ShiftCommandsPos(s, data, device, true);
    OthersPos(s, data, false);
    OthersPos(s, data, true);
    XSDRINCTracks(s, data, device);
  }

  /** A command that leaves the player running has used up at least its own byte: past the end of the
      stream the next command byte reads as 0xFF, which is no command. */
  lemma RunProgress(s: Snap, data: seq<byte>, device: History -> bv16)
    requires s.Valid(data) && s.Running() && Run(s, data, device).Running()
    ensures Run(s, data, device).pos > s.pos
  {
    hide XSIR, XSIR2, XSDR, XSDRTDO, XSDRBCE, XSDRTDOBCE, XSDRINC, XTDOMASK, XRUNTEST, XREPEAT, XSDRSIZE,
         XSETSDRMASKS, XENDXR, XCOMMENT, XSTATE, XWAIT;
    PerformPos(Fetched(s, data), data, device);
  }

  /** So no stream keeps the model busy for more than one command per byte and one more. */
  lemma {:induction false} CommandsRunOut(s: Snap, data: seq<byte>, device: History -> bv16, n: nat)
    requires s.Valid(data)
    ensures var r := Runs(s, data, device, n); r.Running() ==> r.pos >= s.pos + n
    ensures n > |data| - s.pos ==> !Runs(s, data, device, n).Running()
  {
    hide Run;
    if n > 0 {
      CommandsRunOut(s, data, device, n - 1);
      var t := Runs(s, data, device, n - 1);
      if !t.Running() {
        StoppedStays(t, data, device);
      } else if Run(t, data, device).Running() {
        RunProgress(t, data, device);
      }
    }
  }

  lemma StoppedStays(s: Snap, data: seq<byte>, device: History -> bv16)
    requires s.Valid(data) && !s.Running()
    ensures Run(s, data, device) == s
  {
  }

  // ----- what reaches the hardware -----

  /** A shift through a register just as long, with any number of retries. */
  lemma RegisterLoaded(device: History -> bv16, core: Hardware.Core, h0: Hardware.Hw, b: Bench, job: Job)
    requires b.Valid() && job.Valid() && job.n > 0 && EndsInColumn(job) && InStep(core, h0, b.line)
    requires Hardware.HasLength(core, h0, job.start == Tap.SHIFTIR, job.n)
    ensures Target(job, Hardware.Run(core, h0, Retry.Shift(device, b, job).bench.line.wire.log)) == Bits(job.v, job.n)
  {
    hide InStep, Retry.Shift, Before, Goto, Hardware.Run, Hardware.HasLength, Job.Valid, EndsInColumn, Attempts, AtShift;
    ShiftLoads(device, core, h0, b, job);
    ScansPositive(device, b, job);
    var last := Before(device, b, job, Retry.Shift(device, b, job).scans - 1);
    LengthKept(core, h0, last, job);
  }

  lemma ScansPositive(device: History -> bv16, b: Bench, job: Job)
    requires b.Valid() && job.Valid() && job.n > 0
    ensures Retry.Shift(device, b, job).scans > 0
  {
    hide Attempts;
  }

  lemma LengthKept(core: Hardware.Core, h0: Hardware.Hw, b: Bench, job: Job)
    requires b.Valid() && job.Valid() && Hardware.HasLength(core, h0, job.start == Tap.SHIFTIR, job.n)
    ensures |Target(job, AtShift(core, h0, b, job))| == job.n
  {
    hide Hardware.HasLength, Hardware.Run, Goto;
    Hardware.LengthKept(core, h0, Goto(b.line, job.start).wire.log, job.start == Tap.SHIFTIR, job.n);
  }

  lemma PlayIRLoads(s: Snap, data: seq<byte>, device: History -> bv16, bits: nat, core: Hardware.Core, h0: Hardware.Hw)
    requires s.Valid(data) && s.error == NoError && 0 < bits <= 8 * s.tdi.len && InStep(core, h0, s.line)
    requires Hardware.HasLength(core, h0, true, bits)
    ensures Hardware.Run(core, h0, PlayIR(s, data, device, bits).line.wire.log).ir == Bits(s.tdi.View(), bits)
  {
    hide InStep, Retry.Shift, Hardware.HasLength, Hardware.Run, Bits;
    RegisterLoaded(device, core, h0, Bench(s.line, NoBuffer(), s.runTest), IrJob(s, bits));
  }

  lemma PlayDRLoads(s: Snap, data: seq<byte>, device: History -> bv16, compare: bool, masked: bool, end: nat, runTest: nat,
                    repeats: byte, core: Hardware.Core, h0: Hardware.Hw)
    requires s.Valid(data) && s.error == NoError && s.Sized() && (end == s.endDR || end == Tap.SHIFTDR)
    requires s.bits > 0 && InStep(core, h0, s.line) && Hardware.HasLength(core, h0, false, s.bits)
    ensures Hardware.Run(core, h0, PlayDR(s, data, device, compare, masked, end, runTest, repeats).line.wire.log).dr
            == Bits(s.tdi.View(), s.bits)
  {
    hide InStep, Retry.Shift, Hardware.HasLength, Hardware.Run, Bits;
    RegisterLoaded(device, core, h0, Bench(s.line, if compare then s.captured.buf else NoBuffer(), runTest),
                   DrJob(s, compare, masked, end, repeats));
  }

  /** After an instruction command the hardware's instruction register holds the operand in the stream,
      wherever the command then went, if the register is as long as the operand says. */
  lemma InstructionLoaded(s: Snap, data: seq<byte>, device: History -> bv16, core: Hardware.Core, h0: Hardware.Hw)
    requires s.Valid(data) && s.error == NoError && InStep(core, h0, s.line)
    ensures var n: nat := At(data, s.pos);
            n > 0 && Hardware.HasLength(core, h0, true, n) ==>
              Hardware.Run(core, h0, XSIR(s, data, device).line.wire.log).ir
              == Bits(Take(data, After(data, s.pos, 1), AsNumBytes(n)), n)
    ensures var n := Value(Take(data, s.pos, 2));
            n > 0 && AsNumBytes(n) <= MAX_LEN && Hardware.HasLength(core, h0, true, n) ==>
              Hardware.Run(core, h0, XSIR2(s, data, device).line.wire.log).ir
              == Bits(Take(data, After(data, s.pos, 2), AsNumBytes(n)), n)
  {
    hide InStep, PlayIR, Hardware.HasLength, Hardware.Run, Bits, Take, Value;
    var n: nat := At(data, s.pos);
    if n > 0 && Hardware.HasLength(core, h0, true, n) {
      PlayIRLoads(LoadTdi(s.(pos := After(data, s.pos, 1)), data, AsNumBytes(n)), data, device, n, core, h0);
    }
    var t := LoadTdi(s, data, 2);
    var m := Value(t.tdi.View());
    if m > 0 && AsNumBytes(m) <= MAX_LEN && Hardware.HasLength(core, h0, true, m) {
      PlayIRLoads(LoadTdi(t, data, AsNumBytes(m)), data, device, m, core, h0);
    }
  }

  /** After a data command, however often it was repeated, the data register holds the operand, whether
      the scan was left or goes on, if the register is as long as XSDRSIZE said. */
  lemma DataLoaded(s: Snap, data: seq<byte>, device: History -> bv16, last: bool, core: Hardware.Core, h0: Hardware.Hw)
    requires s.Valid(data) && s.error == NoError && InStep(core, h0, s.line)
    requires s.Fits() && s.bits > 0 && Hardware.HasLength(core, h0, false, s.bits)
    ensures var operand := Bits(Take(data, s.pos, s.bytes), s.bits);
            && Hardware.Run(core, h0, XSDR(s, data, device).line.wire.log).dr == operand
            && Hardware.Run(core, h0, XSDRTDO(s, data, device).line.wire.log).dr == operand
            && Hardware.Run(core, h0, XSDRBCE(s, data, device, last).line.wire.log).dr == operand
            && Hardware.Run(core, h0, XSDRTDOBCE(s, data, device, last).line.wire.log).dr == operand
  {
    hide InStep, PlayDR, Hardware.HasLength, Hardware.Run, Bits, Take;
    var t, u := LoadTdi(s, data, s.bytes), LoadBoth(s, data);
    var end := if last then s.endDR else Tap.SHIFTDR;
    PlayDRLoads(t, data, device, true, true, s.endDR, s.runTest, s.maxRepeat, core, h0);
    PlayDRLoads(u, data, device, true, true, s.endDR, s.runTest, s.maxRepeat, core, h0);
    PlayDRLoads(t, data, device, false, false, end, 0, 0, core, h0);
    PlayDRLoads(u, data, device, true, false, end, 0, 0, core, h0);
  }
}
