/** The XSVF player itself (jtag/micro.c): `SXsvfInfo` as an object whose command functions update it
    in place, each against its specification in module PlayerSpec. */
module XsvfPlayer {
  import opened Bytes
  import opened Errors
  import opened LenVals
  import opened Lines
  import opened PlayerSpec
  import opened Ports
  import opened Retry
  import opened Source
  import Commands
  import Hardware
  import Masking
  import MaskingOps
  import Navigate
  import EndlessLaws
  import PlayerLaws
  import RetryOps
  import Tap

  class Player {
    const port: Port
    const input: Input

    var complete: bool
    var command: byte
    var commandCount: nat
    var errorCode: Error
    var halt: Halt

    var tapState: nat
    var endIR: nat
    var endDR: nat

    var maxRepeat: byte
    var runTestTime: nat

    var shiftLengthBits: nat
    var shiftLengthBytes: int

    const lvTdi: LenVal
    const lvTdoExpected: LenVal
    const lvTdoCaptured: LenVal
    const lvTdoMask: LenVal
    const lvAddressMask: LenVal
    const lvDataMask: LenVal
    const lvNextData: LenVal

    /** The shift buffers are seven different objects with seven different arrays. */
    ghost predicate Distinct() {
      var t, e, c, m, a, d, n := lvTdi, lvTdoExpected, lvTdoCaptured, lvTdoMask, lvAddressMask, lvDataMask, lvNextData;
      && t != e && t != c && t != m && t != a && t != d && t != n && e != c && e != m && e != a && e != d && e != n
      && c != m && c != a && c != d && c != n && m != a && m != d && m != n && a != d && a != n && d != n
      && t.val != e.val && t.val != c.val && t.val != m.val && t.val != a.val && t.val != d.val && t.val != n.val
      && e.val != c.val && e.val != m.val && e.val != a.val && e.val != d.val && e.val != n.val
      && c.val != m.val && c.val != a.val && c.val != d.val && c.val != n.val
      && m.val != a.val && m.val != d.val && m.val != n.val && a.val != d.val && a.val != n.val && d.val != n.val
    }

    ghost predicate BuffersValid()
      reads lvTdi, lvTdoExpected, lvTdoCaptured, lvTdoMask, lvAddressMask, lvDataMask, lvNextData
    {
      && lvTdi.Valid() && lvTdoExpected.Valid() && lvTdoCaptured.Valid() && lvTdoMask.Valid()
      && lvAddressMask.Valid() && lvDataMask.Valid() && lvNextData.Valid()
    }

    ghost predicate Sound()
      reads port, input, lvTdi, lvTdoExpected, lvTdoCaptured, lvTdoMask, lvAddressMask, lvDataMask, lvNextData
    {
      Distinct() && BuffersValid() && port.Valid() && input.Valid()
    }

    ghost function ValOf(lv: LenVal): (v: Val)
      requires lv.Valid()
      reads lv, lv.val
      ensures v.Valid()
    {
      Val(lv.val[..], lv.len)
    }

    ghost function Snapshot(): Snap
      requires BuffersValid()
      reads this, port, input, lvTdi, lvTdoExpected, lvTdoCaptured, lvTdoMask, lvAddressMask, lvDataMask, lvNextData
      reads lvTdi.val, lvTdoExpected.val, lvTdoCaptured.val, lvTdoMask.val, lvAddressMask.val, lvDataMask.val, lvNextData.val
    {
      Snap(complete, command, commandCount, errorCode, halt,
           Line(port.wire, tapState), endIR, endDR, maxRepeat, runTestTime, shiftLengthBits, shiftLengthBytes,
           ValOf(lvTdi), ValOf(lvTdoExpected), ValOf(lvTdoCaptured), ValOf(lvTdoMask), ValOf(lvAddressMask),
           ValOf(lvDataMask), ValOf(lvNextData), input.pos)
    }

    ghost predicate Valid()
      reads this, port, input, lvTdi, lvTdoExpected, lvTdoCaptured, lvTdoMask, lvAddressMask, lvDataMask, lvNextData
      reads lvTdi.val, lvTdoExpected.val, lvTdoCaptured.val, lvTdoMask.val, lvAddressMask.val, lvDataMask.val, lvNextData.val
    {
      Sound() && Snapshot().Valid(input.data)
    }

    /** The byte count was not cut. */
    predicate Fits()
      reads this
    {
      shiftLengthBytes == AsNumBytes(shiftLengthBits)
    }

    /** And the TDI value has been read with it. */
    predicate Sized()
      reads this, lvTdi
    {
      Fits() && lvTdi.len == shiftLengthBytes
    }

    constructor (port: Port, data: seq<byte>)
      requires port.Valid()
      ensures Sound() && this.port == port && input.data == data && input.pos == 0
    {
      this.port := port;
      input := new Input(data);
      lvTdi := new LenVal();
      lvTdoExpected := new LenVal();
      lvTdoCaptured := new LenVal();
      lvTdoMask := new LenVal();
      lvAddressMask := new LenVal();
      lvDataMask := new LenVal();
      lvNextData := new LenVal();
      errorCode, halt := NoError, Live;
    }

    // ----- commands that only set state -----

    method DoIllegalCmd()
      requires Valid()
      modifies this`errorCode
      ensures Valid() && Snapshot() == old(Snapshot()).(error := IllegalCmd)
    {
      errorCode := IllegalCmd;
    }

    method DoXCOMPLETE()
      requires Valid()
      modifies this`complete
      ensures Valid() && Snapshot() == old(Snapshot()).(complete := true)
    {
      complete := true;
    }

    method DoXTDOMASK()
      requires Valid() && errorCode == NoError
      modifies this`halt, lvTdoMask, lvTdoMask.val, input
      ensures Valid() && Snapshot() == XTDOMASK(old(Snapshot()), input.data)
    {
      if shiftLengthBytes < 0 {
        halt := Overrun;
      } else {
        lvTdoMask.ReadVal(input, shiftLengthBytes);
      }
    }

    method ReadTdi(n: nat)
      requires Valid() && n <= MAX_LEN
      modifies lvTdi, lvTdi.val, input
      ensures Valid() && lvTdi.len == n && Snapshot() == LoadTdi(old(Snapshot()), input.data, n)
    {
      lvTdi.ReadVal(input, n);
    }

    method DoXRUNTEST()
      requires Valid() && errorCode == NoError
      modifies this`runTestTime, lvTdi, lvTdi.val, input
      ensures Valid() && Snapshot() == XRUNTEST(old(Snapshot()), input.data)
    {
      hide Value, Take, Distinct;
      ReadTdi(4);
      runTestTime := lvTdi.Value();
    }

    method DoXREPEAT()
      requires Valid() && errorCode == NoError
      modifies this`maxRepeat, input
      ensures Valid() && Snapshot() == XREPEAT(old(Snapshot()), input.data)
    {
      maxRepeat := input.ReadByte();
    }

    method SetSize(bits: nat)
      requires Valid() && errorCode == NoError
      modifies this`shiftLengthBits, this`shiftLengthBytes, this`errorCode
      ensures Valid() && Snapshot() == WithSize(old(Snapshot()), bits)
    {
      hide Distinct, Complementary, PinsOf;
      shiftLengthBits := bits;
      shiftLengthBytes := ShortBytes(bits);
      if shiftLengthBytes > MAX_LEN {
        errorCode := DataOverflow;
      }
    }

    method DoXSDRSIZE()
      requires Valid() && errorCode == NoError
      modifies this`shiftLengthBits, this`shiftLengthBytes, this`errorCode, lvTdi, lvTdi.val, input
      ensures Valid() && Snapshot() == XSDRSIZE(old(Snapshot()), input.data)
    {
      hide Value, Take, Distinct, Load;
      ReadTdi(4);
      var bits := lvTdi.Value();
      SetSize(bits);
    }

    method DoXSETSDRMASKS()
      requires Valid() && errorCode == NoError
      modifies this`halt, lvAddressMask, lvAddressMask.val, lvDataMask, lvDataMask.val, input
      ensures Valid() && Snapshot() == XSETSDRMASKS(old(Snapshot()), input.data)
    {
      if shiftLengthBytes < 0 {
        halt := Overrun;
      } else {
        lvAddressMask.ReadVal(input, shiftLengthBytes);
        lvDataMask.ReadVal(input, shiftLengthBytes);
      }
    }

    method DoXENDXR(ir: bool)
      requires Valid() && errorCode == NoError
      modifies this`endIR, this`endDR, this`errorCode, input
      ensures Valid() && Snapshot() == XENDXR(old(Snapshot()), input.data, ir)
    {
      hide EndNamed, Distinct, Complementary, PinsOf;
      var end := input.ReadByte();
      SetEnd(end, ir);
    }

    method SetEnd(end: byte, ir: bool)
      requires Valid() && errorCode == NoError
      modifies this`endIR, this`endDR, this`errorCode
      ensures Valid() && Snapshot() == EndNamed(old(Snapshot()), end, ir)
    {
      hide Distinct, Complementary, PinsOf;
      if end != 0 && end != 1 {
        errorCode := IllegalState;
      } else if ir {
        endIR := if end == 0 then Tap.RUNTEST else Tap.PAUSEIR;
      } else {
        endDR := if end == 0 then Tap.RUNTEST else Tap.PAUSEDR;
      }
    }

    method DoXCOMMENT()
      requires Valid() && errorCode == NoError
      modifies this`halt, input
      ensures Valid() && Snapshot() == XCOMMENT(old(Snapshot()), input.data)
    {
      ghost var z := Commands.ZeroFrom(input.data, input.pos);
      var text: byte := 1;
      while text != 0 && input.pos < |input.data|
        invariant input.Valid() && halt == old(halt)
        invariant if text != 0 then Commands.ZeroFrom(input.data, input.pos) == z
                  else z < |input.data| && input.pos == z + 1
        decreases |input.data| - input.pos, text
      {
        text := input.ReadByte();
      }
      if text != 0 {
        assert Commands.ZeroFrom(input.data, |input.data|) == |input.data|;
        halt := EndlessComment;
      }
    }

    /** Move the TAP for a command, recording an error. */
    method GotoState(target: nat)
      requires Valid() && target <= Tap.UPDATEIR
      modifies this`tapState, this`errorCode, port
      ensures Valid()
      ensures Snapshot() == Failed(old(Snapshot()).(line := Goto(old(Line(port.wire, tapState)), target)),
                                   if target != Tap.RESET && Tap.Illegal(old(tapState), target) then IllegalState else NoError)
    {
      hide Goto, Complementary, PinsOf, Distinct;
      var error;
      tapState, error := Navigate.GotoTapState(port, tapState, target);
      if error != NoError {
        errorCode := error;
      }
    }

    method DoXSTATE()
      requires Valid() && errorCode == NoError
      modifies this`tapState, this`errorCode, this`halt, port, input
      ensures Valid() && Snapshot() == XSTATE(old(Snapshot()), input.data)
    {
      hide Goto, Complementary, PinsOf, Distinct;
      var target := input.ReadByte();
      if target > Tap.UPDATEIR {
        halt := EndlessWalk;
      } else {
        GotoState(target);
      }
    }

    method ReadTdiByte() returns (b: byte)
      requires Valid()
      modifies lvTdi, lvTdi.val, input
      ensures Valid() && Snapshot() == LoadTdi(old(Snapshot()), input.data, 1) && b == At(input.data, old(input.pos))
    {
      hide Distinct;
      ReadTdi(1);
      b := lvTdi.val[0];
      assert Take(input.data, old(input.pos), 1)[0] == At(input.data, old(input.pos));
    }

    method GoThere(target: nat)
      requires port.Valid() && tapState <= Tap.UPDATEIR && target <= Tap.UPDATEIR
      modifies this`tapState, port
      ensures port.Valid() && Line(port.wire, tapState) == Commands.GoUnless(old(Line(port.wire, tapState)), target)
    {
      hide Goto, Complementary, PinsOf;
      if tapState != target {
        var error;
        tapState, error := Navigate.GotoTapState(port, tapState, target);
      }
    }

    /** Errors of navigation are dropped here and in `LeaveFor`. */
    method WaitHere(waitState: nat, usec: nat)
      requires Valid() && waitState <= Tap.UPDATEIR
      modifies this`tapState, port
      ensures Valid()
      ensures Snapshot() == old(Snapshot()).(line := Commands.WaitThere(old(Line(port.wire, tapState)), waitState, usec))
    {
      hide Goto, Wait, Commands.GoUnless, Complementary, PinsOf, Distinct;
      GoThere(waitState);
      port.WaitTime(usec);
    }

    method LeaveFor(endState: nat)
      requires Valid() && endState <= Tap.UPDATEIR
      modifies this`tapState, port
      ensures Valid()
      ensures Snapshot() == old(Snapshot()).(line := Commands.GoUnless(old(Line(port.wire, tapState)), endState))
    {
      hide Goto, Commands.GoUnless, Complementary, PinsOf, Distinct;
      GoThere(endState);
    }

    method WaitAndLeave(waitState: nat, usec: nat, endState: nat)
      requires Valid()
      modifies this`tapState, this`halt, port
      ensures Valid() && Snapshot() == Waited(old(Snapshot()), waitState, usec, endState)
    {
      hide Commands.WaitThere, Commands.GoUnless, Distinct, Complementary, PinsOf;
      if waitState > Tap.UPDATEIR {
        halt := EndlessWalk;
      } else {
        WaitHere(waitState, usec);
        if endState > Tap.UPDATEIR {
          halt := EndlessWalk;
        } else {
          LeaveFor(endState);
        }
      }
    }

    method DoXWAIT()
      requires Valid() && errorCode == NoError
      modifies this`tapState, this`halt, port, lvTdi, lvTdi.val, input
      ensures Valid() && Snapshot() == XWAIT(old(Snapshot()), input.data)
    {
      hide Waited, Value, Take, Load, Distinct, Complementary, PinsOf;
      var waitState := ReadTdiByte();
      var endState := ReadTdiByte();
      ReadTdi(4);
      var usec := lvTdi.Value();
      WaitAndLeave(waitState, usec, endState);
    }

    // ----- commands that shift -----

    method Record(error: Error)
      requires Valid() && errorCode == NoError
      modifies this`errorCode
      ensures Valid() && Snapshot() == Failed(old(Snapshot()), error)
    {
      if error != NoError {
        errorCode := error;
      }
    }

    lemma InstructionJob(bits: nat)
      requires Valid() && bits <= 8 * lvTdi.len
      ensures var job := IrJob(Snapshot(), bits);
              job.Valid() && job == RetryOps.JobOf(Tap.SHIFTIR, bits, lvTdi, null, null, null, endIR, 0)
    {
      hide Distinct, Complementary, PinsOf;
    }

    method ShiftIR(bits: nat)
      requires Valid() && errorCode == NoError && bits <= 8 * lvTdi.len
      modifies this`tapState, this`errorCode, port
      ensures Valid() && Snapshot() == PlayIR(old(Snapshot()), input.data, port.device, bits)
    {
      hide IrOut, Sound, BuffersValid, ValOf;
      var error := ScanIR(bits);
      Record(error);
    }

    method ScanIR(bits: nat) returns (error: Error)
      requires Valid() && errorCode == NoError && bits <= 8 * lvTdi.len
      modifies this`tapState, port
      ensures Valid()
      ensures var s := old(Snapshot());
              var o := IrOut(s, input.data, port.device, bits);
              error == o.error && Snapshot() == Landed(s, input.data, o.(error := NoError), false)
    {
      hide Retry.Shift, Complementary, PinsOf, Distinct, IrJob, RetryOps.JobOf, Job.Valid, MaskOf;
      InstructionJob(bits);
      tapState, error := RetryOps.Shift(port, tapState, Tap.SHIFTIR, bits, lvTdi, null, null, null, endIR, runTestTime, 0);
    }

    lemma ComparedJob(masked: bool, end: nat, repeats: byte)
      requires Valid() && errorCode == NoError && Sized() && (end == endDR || end == Tap.SHIFTDR)
      ensures var job := DrJob(Snapshot(), true, masked, end, repeats);
              && job.Valid()
              && job == RetryOps.JobOf(Tap.SHIFTDR, shiftLengthBits, lvTdi, lvTdoCaptured, lvTdoExpected,
                                       if masked then lvTdoMask else null, end, repeats)
    {
      hide Distinct, Complementary, PinsOf;
    }

    lemma ComparedOut(masked: bool, end: nat, runTest: nat, repeats: byte)
      requires Valid() && errorCode == NoError && Sized() && (end == endDR || end == Tap.SHIFTDR)
      ensures var job := RetryOps.JobOf(Tap.SHIFTDR, shiftLengthBits, lvTdi, lvTdoCaptured, lvTdoExpected,
                                        if masked then lvTdoMask else null, end, repeats);
              && job.Valid()
              && DrOut(Snapshot(), input.data, port.device, true, masked, end, runTest, repeats)
                 == Retry.Shift(port.device, Bench(Line(port.wire, tapState), RetryOps.BufferOf(lvTdoCaptured), runTest), job)
    {
      hide Distinct, Complementary, PinsOf, DrJob, RetryOps.JobOf, Job.Valid, Retry.Shift;
      ComparedJob(masked, end, repeats);
    }

    method RunCompared(masked: bool, end: nat, runTest: nat, repeats: byte) returns (tap: nat, error: Error)
      requires Valid() && errorCode == NoError && Sized() && (end == endDR || end == Tap.SHIFTDR)
      modifies port, lvTdoCaptured, lvTdoCaptured.val
      ensures port.Valid() && lvTdoCaptured.Valid()
      ensures var o := DrOut(old(Snapshot()), input.data, port.device, true, masked, end, runTest, repeats);
              && o.bench.line == Line(port.wire, tap) && o.bench.captured == lvTdoCaptured.val[..] && o.error == error
      ensures lvTdoCaptured.len == if shiftLengthBits == 0 then old(lvTdoCaptured.len) else lvTdi.len
    {
      hide Retry.Shift, DrOut, Complementary, PinsOf, RetryOps.JobOf, Job.Valid;
      ComparedOut(masked, end, runTest, repeats);
      tap, error := RetryOps.Shift(port, tapState, Tap.SHIFTDR, shiftLengthBits, lvTdi, lvTdoCaptured, lvTdoExpected,
                                   if masked then lvTdoMask else null, end, runTest, repeats);
    }

    method ScanCompared(masked: bool, end: nat, runTest: nat, repeats: byte) returns (error: Error)
      requires Valid() && errorCode == NoError && Sized() && (end == endDR || end == Tap.SHIFTDR)
      modifies this`tapState, port, lvTdoCaptured, lvTdoCaptured.val
      ensures Valid()
      ensures var s := old(Snapshot());
              var o := DrOut(s, input.data, port.device, true, masked, end, runTest, repeats);
              error == o.error && Snapshot() == Landed(s, input.data, o.(error := NoError), true)
    {
      hide DrOut, Complementary, PinsOf;
      tapState, error := RunCompared(masked, end, runTest, repeats);
    }

    method ScanBlind(end: nat, runTest: nat, repeats: byte) returns (error: Error)
      requires Valid() && errorCode == NoError && Sized() && (end == endDR || end == Tap.SHIFTDR)
      modifies this`tapState, port
      ensures Valid()
      ensures var s := old(Snapshot());
              var o := DrOut(s, input.data, port.device, false, false, end, runTest, repeats);
              error == o.error && Snapshot() == Landed(s, input.data, o.(error := NoError), false)
    {
      hide Retry.Shift, Complementary, PinsOf, Goto;
      tapState, error := RetryOps.Shift(port, tapState, Tap.SHIFTDR, shiftLengthBits, lvTdi, null, null, null, end, runTest,
                                        repeats);
    }

    method ShiftDR(compare: bool, masked: bool, end: nat, runTest: nat, repeats: byte)
      requires Valid() && errorCode == NoError && Sized() && (end == endDR || end == Tap.SHIFTDR)
      requires masked ==> compare
      modifies this`tapState, this`errorCode, port, lvTdoCaptured, lvTdoCaptured.val
      ensures Valid()
      ensures Snapshot() == PlayDR(old(Snapshot()), input.data, port.device, compare, masked, end, runTest, repeats)
    {
      hide DrOut, Sound, BuffersValid, ValOf;
      var error;
      if compare {
        error := ScanCompared(masked, end, runTest, repeats);
      } else {
        error := ScanBlind(end, runTest, repeats);
      }
      Record(error);
    }

    method DoXSIR()
      requires Valid() && errorCode == NoError
      modifies this`tapState, this`errorCode, port, lvTdi, lvTdi.val, input
      ensures Valid() && Snapshot() == XSIR(old(Snapshot()), input.data, port.device)
    {
      hide PlayIR, Complementary, PinsOf, Distinct, Take;
      var bits := input.ReadByte();
      ReadTdi(AsNumBytes(bits));
      ShiftIR(bits);
    }

    method DoXSIR2()
      requires Valid() && errorCode == NoError
      modifies this`tapState, this`errorCode, port, lvTdi, lvTdi.val, input
      ensures Valid() && Snapshot() == XSIR2(old(Snapshot()), input.data, port.device)
    {
      hide PlayIR, Complementary, PinsOf, Distinct, Take, Value, Load;
      ReadTdi(2);
      var bits := lvTdi.Value();
      if AsNumBytes(bits) > MAX_LEN {
        Record(DataOverflow);
      } else {
        ReadTdi(AsNumBytes(bits));
        ShiftIR(bits);
      }
    }

    method DoXSDR()
      requires Valid() && errorCode == NoError
      modifies this`tapState, this`errorCode, this`halt, port, lvTdi, lvTdi.val, lvTdoCaptured, lvTdoCaptured.val, input
      ensures Valid() && Snapshot() == XSDR(old(Snapshot()), input.data, port.device)
    {
      hide PlayDR, Complementary, PinsOf, Distinct, Take;
      if !Fits() {
        halt := Overrun;
        return;
      }
      ReadTdi(shiftLengthBytes);
      ShiftDR(true, true, endDR, runTestTime, maxRepeat);
    }

    /** The reads of `xsvfBasicXSDRTDO` when something is expected. */
    method ReadBoth()
      requires Valid() && errorCode == NoError && Fits()
      modifies lvTdi, lvTdi.val, lvTdoExpected, lvTdoExpected.val, input
      ensures Valid() && Sized() && Snapshot() == LoadBoth(old(Snapshot()), input.data)
    {
      hide Take, Complementary, PinsOf;
      lvTdi.ReadVal(input, shiftLengthBytes);
      lvTdoExpected.ReadVal(input, shiftLengthBytes);
    }

    method DoXSDRTDO()
      requires Valid() && errorCode == NoError
      modifies this`tapState, this`errorCode, this`halt, port, lvTdi, lvTdi.val, lvTdoExpected, lvTdoExpected.val
      modifies lvTdoCaptured, lvTdoCaptured.val, input
      ensures Valid() && Snapshot() == XSDRTDO(old(Snapshot()), input.data, port.device)
    {
      hide PlayDR, Complementary, PinsOf, Distinct, LoadBoth;
      if !Fits() {
        halt := Overrun;
        return;
      }
      ReadBoth();
      ShiftDR(true, true, endDR, runTestTime, maxRepeat);
    }

    method DoXSDRBCE(last: bool)
      requires Valid() && errorCode == NoError
      modifies this`tapState, this`errorCode, this`halt, port, lvTdi, lvTdi.val, lvTdoCaptured, lvTdoCaptured.val, input
      ensures Valid() && Snapshot() == XSDRBCE(old(Snapshot()), input.data, port.device, last)
    {
      hide PlayDR, Complementary, PinsOf, Distinct, Take;
      if !Fits() {
        halt := Overrun;
        return;
      }
      ReadTdi(shiftLengthBytes);
      ShiftDR(false, false, if last then endDR else Tap.SHIFTDR, 0, 0);
    }

    method DoXSDRTDOBCE(last: bool)
      requires Valid() && errorCode == NoError
      modifies this`tapState, this`errorCode, this`halt, port, lvTdi, lvTdi.val, lvTdoExpected, lvTdoExpected.val
      modifies lvTdoCaptured, lvTdoCaptured.val, input
      ensures Valid() && Snapshot() == XSDRTDOBCE(old(Snapshot()), input.data, port.device, last)
    {
      hide PlayDR, Complementary, PinsOf, Distinct, LoadBoth;
      if !Fits() {
        halt := Overrun;
        return;
      }
      ReadBoth();
      ShiftDR(true, false, if last then endDR else Tap.SHIFTDR, 0, 0);
    }

    // ----- XSDRINC -----

    /** The counter is an unsigned char, so this ends only for masks of at most 255 bytes. */
    method CountMaskBits() returns (ones: nat)
      requires lvDataMask.Valid() && lvDataMask.len <= 255
      ensures ones == Masking.Ones(lvDataMask.View(), 8 * lvDataMask.len)
    {
      ghost var m := lvDataMask.View();
      ones := 0;
      var i: byte := 0;
      while i < lvDataMask.len
        invariant i <= |m| && ones == Masking.TotalOnes(m[..i])
        decreases |m| - i
      {
        var dataMask: nat := lvDataMask.val[i];
        ghost var total := ones + Masking.PopCount(dataMask);
        while dataMask != 0
          invariant ones + Masking.PopCount(dataMask) == total
        {
          ones := ones + dataMask % 2;
          dataMask := dataMask / 2;
        }
        assert m[..i + 1][..i] == m[..i];
        if i == 255 {
          assert false;
        }
        i := i + 1;
      }
      assert m[..|m|] == m;
      Masking.TotalOnesIsOnes(m);
    }

    method ReadNext(n: nat)
      requires Valid() && n == Commands.PieceLen(lvDataMask.View()) <= MAX_LEN
      modifies lvTdi`len, lvTdi.val, lvNextData, lvNextData.val, input
      ensures Valid() && lvTdi.len == old(lvTdi.len) && Snapshot() == NextPiece(old(Snapshot()), input.data)
    {
      hide Take, Complementary, PinsOf, Masking.NextWord;
      lvNextData.ReadVal(input, n);
      MaskingOps.DoSDRMasking(lvTdi, lvNextData, lvAddressMask, lvDataMask);
    }

    method DoXSDRINC()
      requires Valid() && errorCode == NoError
      modifies this`tapState, this`errorCode, this`halt, port, lvTdi, lvTdi.val, lvTdoCaptured, lvTdoCaptured.val
      modifies lvNextData, lvNextData.val, input
      ensures Valid() && Snapshot() == XSDRINC(old(Snapshot()), input.data, port.device)
    {
      hide XSDR, WordsAfter, Complementary, PinsOf, Distinct, Lines.InStep;
      if !Fits() {
        halt := Overrun;
      } else {
        PlayerLaws.XSDRTracks(Snapshot(), input.data, port.device);
        DoXSDR();
        MoreWords();
      }
    }

    method MoreWords()
      requires Valid() && (errorCode == NoError ==> Sized())
      modifies this`tapState, this`errorCode, this`halt, port, lvTdi`len, lvTdi.val, lvTdoCaptured, lvTdoCaptured.val
      modifies lvNextData, lvNextData.val, input
      ensures Valid() && Snapshot() == WordsAfter(old(Snapshot()), input.data, port.device)
    {
      hide AllPieces, Complementary, PinsOf, Distinct, Masking.Ones;
      if errorCode == NoError {
        if lvDataMask.len > 255 {
          halt := EndlessCount;
        } else {
          CountAndPieces();
        }
      }
    }

    method CountAndPieces()
      requires Valid() && errorCode == NoError && Sized() && lvDataMask.len <= 255
      modifies this`tapState, this`errorCode, port, lvTdi`len, lvTdi.val, lvTdoCaptured, lvTdoCaptured.val
      modifies lvNextData, lvNextData.val, input
      ensures Valid() && Snapshot() == AllPieces(old(Snapshot()), input.data, port.device)
    {
      hide IncLoop, Complementary, PinsOf, Distinct, Masking.Ones;
      var ones := CountMaskBits();
      var times := input.ReadByte();
      Pieces(AsNumBytes(ones), times);
    }

    /** Between two pieces of n bytes each. */
    ghost predicate AtPiece(n: nat)
      reads this, port, input, lvTdi, lvTdoExpected, lvTdoCaptured, lvTdoMask, lvAddressMask, lvDataMask, lvNextData
      reads lvTdi.val, lvTdoExpected.val, lvTdoCaptured.val, lvTdoMask.val, lvAddressMask.val, lvDataMask.val, lvNextData.val
    {
      Valid() && Sized() && n == Commands.PieceLen(lvDataMask.View()) <= MAX_LEN
    }

    /** Where the loop ends up with `left` pieces to go. */
    ghost function Rest(n: nat, left: nat): Snap
      requires AtPiece(n)
      reads this, port, input, lvTdi, lvTdoExpected, lvTdoCaptured, lvTdoMask, lvAddressMask, lvDataMask, lvNextData
      reads lvTdi.val, lvTdoExpected.val, lvTdoCaptured.val, lvTdoMask.val, lvAddressMask.val, lvDataMask.val, lvNextData.val
    {
      IncLoop(Snapshot(), input.data, port.device, left)
    }

    lemma NothingLeft(n: nat, left: nat)
      requires AtPiece(n) && (errorCode != NoError || left == 0)
      ensures Valid() && Snapshot() == Rest(n, left)
    {
    }

    method Pieces(n: nat, times: byte)
      requires AtPiece(n) && errorCode == NoError
      modifies this`tapState, this`errorCode, port, lvTdi`len, lvTdi.val, lvTdoCaptured, lvTdoCaptured.val
      modifies lvNextData, lvNextData.val, input
      ensures Valid() && Snapshot() == old(Rest(n, times))
    {
      hide AtPiece, Rest, Valid, BuffersValid, Snapshot;
      var i: byte := 0;
      while errorCode == NoError && i < times
        invariant i <= times && AtPiece(n) && Rest(n, times - i) == old(Rest(n, times))
        decreases times - i
      {
        OnePiece(n, times - i);
        i := i + 1;
      }
      NothingLeft(n, times - i);
    }

    method OnePiece(n: nat, ghost left: nat)
      requires AtPiece(n) && errorCode == NoError && left > 0
      modifies this`tapState, this`errorCode, port, lvTdi`len, lvTdi.val, lvTdoCaptured, lvTdoCaptured.val
      modifies lvNextData, lvNextData.val, input
      ensures AtPiece(n) && Rest(n, left - 1) == old(Rest(n, left))
    {
      hide NextPiece, PlayDR, Complementary, PinsOf, Masking.Ones;
      ReadNext(n);
      ShiftDR(true, true, endDR, runTestTime, maxRepeat);
    }

    // ----- execution control -----

    method InitCounts()
      requires Sound()
      modifies this`maxRepeat, this`runTestTime, this`commandCount
      ensures Sound()
      ensures Snapshot() == old(Snapshot()).(count := 0, maxRepeat := 0, runTest := 0)
    {
      hide Distinct, Complementary, PinsOf;
      commandCount := 0;
      maxRepeat := 0;
      runTestTime := 0;
    }

    method InitLengths()
      requires Sound()
      modifies this`shiftLengthBits, this`shiftLengthBytes
      ensures Sound()
      ensures Snapshot() == old(Snapshot()).(bits := 0, bytes := 0)
    {
      hide Distinct, Complementary, PinsOf;
      shiftLengthBits := 0;
      shiftLengthBytes := 0;
    }

    method InitStates()
      requires Sound()
      modifies this`tapState, this`endIR, this`endDR
      ensures Sound()
      ensures Snapshot() == StatesReset(old(Snapshot()))
    {
      hide Distinct, Complementary, PinsOf;
      tapState := Tap.RESET;
      endIR := Tap.RUNTEST;
      endDR := Tap.RUNTEST;
    }

    method InitFlags()
      requires Sound()
      modifies this`complete, this`command, this`errorCode, this`halt
      ensures Sound()
      ensures Snapshot() == old(Snapshot()).(complete := false, command := 0, error := NoError, halt := Live)
    {
      hide Distinct, Complementary, PinsOf;
      complete := false;
      command := 0;
      errorCode := NoError;
      halt := Live;
    }

    method InfoInit()
      requires Sound()
      modifies this
      ensures Sound() && Snapshot() == Initial(old(Snapshot()))
    {
      hide Sound, Snapshot;
      InitFlags();
      InitCounts();
      InitLengths();
      InitStates();
    }

    /** After the reset sequence the belief is true of any hardware. */
    method Initialize()
      requires Sound()
      modifies this, port
      ensures Valid() && Snapshot().Running() && Snapshot().Fits() && input.pos == old(input.pos)
      ensures endIR == endDR == 0x01 && maxRepeat == 0 && runTestTime == shiftLengthBits == 0 && commandCount == 0 && command == 0
      ensures Snapshot().line == ResetLine(Line(old(port.wire), Tap.RESET))
      ensures forall core: Hardware.Core, h0: Hardware.Hw :: InStep(core, h0, Snapshot().line)
    {
      hide Distinct, Complementary, PinsOf, Goto, ResetLine, InStep;
      InfoInit();
      Commands.ResetTrue(Line(port.wire, Tap.RESET));
      GotoState(Tap.RESET);
    }

    method Fetch()
      requires Valid()
      modifies this`command, this`commandCount, input
      ensures Valid() && Snapshot() == Fetched(old(Snapshot()), input.data) && errorCode == old(errorCode)
    {
      hide Distinct, Complementary, PinsOf;
      command := input.ReadByte();
      commandCount := commandCount + 1;
    }

    /** The command table. */
    method Perform()
      requires Valid() && errorCode == NoError && Snapshot().command == command
      modifies this, port, input, lvTdi, lvTdoExpected, lvTdoCaptured, lvTdoMask, lvAddressMask, lvDataMask, lvNextData
      modifies lvTdi.val, lvTdoExpected.val, lvTdoCaptured.val, lvTdoMask.val, lvAddressMask.val, lvDataMask.val, lvNextData.val
      ensures Valid() && Snapshot() == PlayerSpec.Perform(old(Snapshot()), input.data, port.device)
    {
      hide Valid, Snapshot, BuffersValid, Sound, Distinct, Snap.Valid, XSIR, XSIR2, XSDR, XSDRTDO, XSDRBCE, XSDRTDOBCE, XSDRINC,
           XTDOMASK, XRUNTEST, XREPEAT, XSDRSIZE, XSETSDRMASKS, XENDXR, XCOMMENT, XSTATE, XWAIT;
      if command == 0 {
        DoXCOMPLETE();
      } else if command == 1 {
        DoXTDOMASK();
      } else if command == 2 {
        DoXSIR();
      } else if command == 3 {
        DoXSDR();
      } else if command == 4 {
        DoXRUNTEST();
      } else if command == 7 {
        DoXREPEAT();
      } else if command == 8 {
        DoXSDRSIZE();
      } else if command == 9 {
        DoXSDRTDO();
      } else if command == 10 {
        DoXSETSDRMASKS();
      } else if command == 11 {
        DoXSDRINC();
      } else if command == 12 || command == 13 || command == 14 {
        DoXSDRBCE(command == 14);
      } else if command == 15 || command == 16 || command == 17 {
        DoXSDRTDOBCE(command == 17);
      } else if command == 18 {
        DoXSTATE();
      } else if command == 19 || command == 20 {
        DoXENDXR(command == 19);
      } else if command == 21 {
        DoXSIR2();
      } else if command == 22 {
        DoXCOMMENT();
      } else if command == 23 {
        DoXWAIT();
      } else {
        DoIllegalCmd();
      }
    }

    /** One command, unless the player has stopped. */
    method Run()
      requires Valid()
      modifies this, port, input, lvTdi, lvTdoExpected, lvTdoCaptured, lvTdoMask, lvAddressMask, lvDataMask, lvNextData
      modifies lvTdi.val, lvTdoExpected.val, lvTdoCaptured.val, lvTdoMask.val, lvAddressMask.val, lvDataMask.val, lvNextData.val
      ensures Valid() && Snapshot() == PlayerSpec.Run(old(Snapshot()), input.data, port.device)
    {
      hide Distinct, Complementary, PinsOf, PlayerSpec.Perform;
      if errorCode == NoError && !complete && halt == Live {
        Fetch();
        Perform();
      }
    }

    /** Play the stream to its end, to the first command from which the source never comes back, or to the first
        that leaves its buffers; `EndlessLaws` says which streams have one. Whatever state the hardware was
        in, the player knows the TAP state it leaves. */
    method Execute() returns (ghost start: Snap, ghost n: nat)
      requires Sound()
      modifies this, port, input, lvTdi, lvTdoExpected, lvTdoCaptured, lvTdoMask, lvAddressMask, lvDataMask, lvNextData
      modifies lvTdi.val, lvTdoExpected.val, lvTdoCaptured.val, lvTdoMask.val, lvAddressMask.val, lvDataMask.val, lvNextData.val
      ensures Valid() && !Snapshot().Running()
      ensures start.Valid(input.data) && start.Running() && start.Fits() && start.pos == old(input.pos)
      ensures start.endIR == start.endDR == 0x01 && start.maxRepeat == 0 && start.runTest == start.bits == start.count == 0
      ensures start.line == ResetLine(Line(old(port.wire), Tap.RESET))
      ensures Snapshot() == Runs(start, input.data, port.device, n)
      ensures Snapshot().halt.Endless() <==> exists k: nat :: k < n && EndlessLaws.LoopsAt(start, input.data, port.device, k)
      ensures Snapshot().halt == Overrun <==> exists k: nat :: k < n && EndlessLaws.OverrunsAt(start, input.data, port.device, k)
      ensures forall core: Hardware.Core, h0: Hardware.Hw :: InStep(core, h0, Snapshot().line)
    {
      hide Distinct, ValOf, LenVal.Valid, Complementary, PinsOf, PlayerSpec.Run, ResetLine, InStep, EndlessLaws.LoopsAt, EndlessLaws.OverrunsAt;
      Initialize();
      start, n := Snapshot(), 0;
      while errorCode == NoError && !complete && halt == Live
        invariant Valid() && Snapshot() == Runs(start, input.data, port.device, n)
        invariant forall core: Hardware.Core, h0: Hardware.Hw :: InStep(core, h0, Snapshot().line)
        decreases Snapshot().Running(), |input.data| - input.pos
      {
        PlayerLaws.RunTracks(Snapshot(), input.data, port.device);
        if PlayerSpec.Run(Snapshot(), input.data, port.device).Running() {
          PlayerLaws.RunProgress(Snapshot(), input.data, port.device);
        }
        Run();
        n := n + 1;
      }
      EndlessLaws.HaltsIff(start, input.data, port.device, n);
    }
  }
}
