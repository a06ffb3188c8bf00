/** What each command byte of a stream does, said of the stream, the hardware and its waits, and not by way of the
    player's own functions. */
module CommandLaws {
  import opened Bytes
  import opened Commands
  import opened Errors
  import opened LenVals
  import opened Lines
  import opened PathLaws
  import opened PlayerLaws
  import opened PlayerSpec
  import opened Ports
  import opened Retry
  import opened Source
  import EndlessLaws
  import Masking
  import SeriesLaws
  import Hardware
  import Tap

  /** The next command byte of a running player is c. */
  ghost predicate Reads(s: Snap, data: seq<byte>, c: byte) {
    s.Valid(data) && s.Running() && At(data, s.pos) == c
  }

  /** Where its operands begin. */
  function Operands(s: Snap, data: seq<byte>): nat
    requires s.pos <= |data|
  {
    After(data, s.pos, 1)
  }

  /** All that every command changes, and its place in the stream afterwards. */
  function Counted(s: Snap, c: byte, pos: nat): Snap {
    s.(command := c, count := s.count + 1, pos := pos)
  }

  // ----- commands that set something -----

  lemma CompleteLaw(s: Snap, data: seq<byte>, device: History -> bv16)
    requires Reads(s, data, 0)
    ensures Run(s, data, device) == Counted(s, 0, Operands(s, data)).(complete := true)
  {
  }

  lemma IllegalLaw(s: Snap, data: seq<byte>, device: History -> bv16, c: byte)
    requires Reads(s, data, c) && (c == 5 || c == 6 || c > 23)
    ensures Run(s, data, device) == Counted(s, c, Operands(s, data)).(error := IllegalCmd)
  {
  }

  /** XTDOMASK: the mask is the next bytes. */
  lemma MaskLaw(s: Snap, data: seq<byte>, device: History -> bv16)
    requires Reads(s, data, 1) && s.bytes >= 0
    ensures var p, r := Operands(s, data), Run(s, data, device);
            && r == Counted(s, 1, After(data, p, s.bytes)).(mask := r.mask)
            && r.mask.View() == Take(data, p, s.bytes)
  {
    hide Take;
  }

  /** XRUNTEST: a big-endian number of four bytes. */
  lemma RunTestLaw(s: Snap, data: seq<byte>, device: History -> bv16)
    requires Reads(s, data, 4)
    ensures var p, r := Operands(s, data), Run(s, data, device);
            r == Counted(s, 4, After(data, p, 4)).(tdi := r.tdi, runTest := Value(Take(data, p, 4)))
  {
    hide Take, Value;
  }

  /** XREPEAT: one byte. */
  lemma RepeatLaw(s: Snap, data: seq<byte>, device: History -> bv16)
    requires Reads(s, data, 7)
    ensures var p := Operands(s, data);
            Run(s, data, device) == Counted(s, 7, After(data, p, 1)).(maxRepeat := At(data, p))
  {
  }

  /** XSDRSIZE: a number of bits, and of the bytes that hold them, which is refused if it is too large. */
  lemma SizeLaw(s: Snap, data: seq<byte>, device: History -> bv16)
    requires Reads(s, data, 8)
    ensures var p, r := Operands(s, data), Run(s, data, device);
            && r == Counted(s, 8, After(data, p, 4)).(tdi := r.tdi, bits := Value(Take(data, p, 4)), bytes := r.bytes, error := r.error)
            && (r.bits <= 8 * MAX_SHORT ==> 8 * (r.bytes - 1) < r.bits <= 8 * r.bytes)
            && (r.error == if r.bytes > MAX_LEN then DataOverflow else NoError)
  {
    hide Take, Value;
  }

  /** XSETSDRMASKS: the address mask first. */
  lemma MasksLaw(s: Snap, data: seq<byte>, device: History -> bv16)
    requires Reads(s, data, 10) && s.bytes >= 0
    ensures var p, r := Operands(s, data), Run(s, data, device);
            var q := After(data, p, s.bytes);
            && r == Counted(s, 10, After(data, q, s.bytes)).(address := r.address, dataMask := r.dataMask)
            && r.address.View() == Take(data, p, s.bytes) && r.dataMask.View() == Take(data, q, s.bytes)
  {
    hide Take;
  }

  /** XENDIR and XENDDR: 0 is Run-Test/Idle and 1 the pause state of the column. */
  lemma EndLaw(s: Snap, data: seq<byte>, device: History -> bv16, c: byte)
    requires Reads(s, data, c) && (c == 19 || c == 20)
    ensures var p, r := Operands(s, data), Run(s, data, device);
            var end, t := At(data, p), Counted(s, c, After(data, p, 1));
            && (end > 1 ==> r == t.(error := IllegalState))
            && (end <= 1 && c == 19 ==> r == t.(endIR := if end == 0 then 0x01 else 0x0D))
            && (end <= 1 && c == 20 ==> r == t.(endDR := if end == 0 then 0x01 else 0x06))
  {
  }

  /** XCOMMENT: up to and with the next zero byte. */
  lemma CommentLaw(s: Snap, data: seq<byte>, device: History -> bv16, z: nat)
    requires Reads(s, data, 22) && Operands(s, data) <= z < |data| && data[z] == 0
    requires forall k :: Operands(s, data) <= k < z ==> data[k] != 0
    ensures Run(s, data, device) == Counted(s, 22, z + 1)
  {
    EndlessLaws.ZeroIsNext(data, Operands(s, data));
  }

  /** One that is never closed is read to its end, and then for ever. */
  lemma OpenCommentLaw(s: Snap, data: seq<byte>, device: History -> bv16)
    requires Reads(s, data, 22) && forall k :: Operands(s, data) <= k < |data| ==> data[k] != 0
    ensures Run(s, data, device) == Counted(s, 22, |data|).(halt := EndlessComment)
  {
    EndlessLaws.ZeroIsNext(data, Operands(s, data));
  }

  // ----- commands that walk -----

  /** Where the hardware is. */
  function TapOf(core: Hardware.Core, h0: Hardware.Hw, l: Line): nat {
    Tap.Code(Hardware.Run(core, h0, l.wire.log).tap)
  }

  /** Exit2-DR and Exit2-IR may be named only from their pause states, or when already there. */
  predicate Refused(tap: nat, target: nat) {
    (target == 0x07 && tap != 0x06 && tap != 0x07) || (target == 0x0E && tap != 0x0D && tap != 0x0E)
  }

  /** XSTATE: the hardware ends up in the state named, or the command is refused and drives
      nothing. */
  lemma StateLaw(core: Hardware.Core, h0: Hardware.Hw, s: Snap, data: seq<byte>, device: History -> bv16)
    requires Reads(s, data, 18) && InStep(core, h0, s.line) && At(data, Operands(s, data)) <= 0x0F
    ensures var p, r := Operands(s, data), Run(s, data, device);
            var target := At(data, p);
            && r == Counted(s, 18, After(data, p, 1)).(line := r.line, error := r.error)
            && (Refused(TapOf(core, h0, s.line), target) ==> r.line == s.line && r.error == IllegalState)
            && (!Refused(TapOf(core, h0, s.line), target) ==>
                  TapOf(core, h0, r.line) == target == r.line.tap && r.error == NoError && InStep(core, h0, r.line))
  {
    hide Goto, Hardware.Run;
    GotoInStep(core, h0, s.line, At(data, Operands(s, data)));
  }

  /** One to a state that does not exist is looked for for ever, from where the hardware is. */
  lemma LostStateLaw(s: Snap, data: seq<byte>, device: History -> bv16)
    requires Reads(s, data, 18) && At(data, Operands(s, data)) > 0x0F
    ensures Run(s, data, device) == Counted(s, 18, After(data, Operands(s, data), 1)).(halt := EndlessWalk)
  {
  }

  /** A pause state asked for while in it is left, with an update and a capture, and entered again. */
  lemma PauseLaw(core: Hardware.Core, h0: Hardware.Hw, s: Snap, data: seq<byte>, device: History -> bv16)
    requires Reads(s, data, 18) && InStep(core, h0, s.line)
    ensures var before, after := Events(core, h0, s.line.wire.log), Events(core, h0, Run(s, data, device).line.wire.log);
            var pause := At(data, Operands(s, data));
            && (TapOf(core, h0, s.line) == pause == 0x06 ==>
                  after == before + [In(Tap.Exit2DR), In(Tap.UpdateDR), In(Tap.SelectDR), In(Tap.CaptureDR), In(Tap.Exit1DR),
                                     In(Tap.PauseDR)])
            && (TapOf(core, h0, s.line) == pause == 0x0D ==>
                  after == before + [In(Tap.Exit2IR), In(Tap.UpdateIR), In(Tap.SelectDR), In(Tap.SelectIR), In(Tap.CaptureIR),
                                     In(Tap.Exit1IR), In(Tap.PauseIR)])
  {
    hide Goto, Events, Hardware.Run, Route, StateOf;
    RoutesRound();
    OneState(Tap.Exit2DR, 7);
    OneState(Tap.Exit2IR, 14);
    if s.line.tap == 6 {
      GotoEvents(core, h0, s.line, 6);
    } else if s.line.tap == 13 {
      GotoEvents(core, h0, s.line, 13);
    }
  }

  /** XWAIT: to the wait state, the wait there, and on to the end state. */
  lemma WaitLaw(core: Hardware.Core, h0: Hardware.Hw, s: Snap, data: seq<byte>, device: History -> bv16)
    requires Reads(s, data, 23) && InStep(core, h0, s.line)
    requires At(data, Operands(s, data)) <= 0x0F && At(data, After(data, Operands(s, data), 1)) <= 0x0F
    ensures var p, r := Operands(s, data), Run(s, data, device);
            var q := After(data, p, 1);
            var wait, end := At(data, p), At(data, q);
            && r == Counted(s, 23, After(data, After(data, q, 1), 4)).(line := r.line, tdi := r.tdi)
            && InStep(core, h0, r.line)
            && (!Refused(s.line.tap, wait) && !Refused(wait, end) ==>
                  && TapOf(core, h0, r.line) == end
                  && WaitsOf(core, h0, r.line)
                     == WaitsOf(core, h0, s.line) + [Event.Wait(StateOf(wait), Value(Take(data, After(data, q, 1), 4)))])
  {
    hide Goto, Events, Waits, InStep, Hardware.Run, Ports.Wait, Take, Value;
    var p := Operands(s, data);
    var q := After(data, p, 1);
    var wait: nat, end: nat := At(data, p), At(data, q);
    var usec := Value(Take(data, After(data, q, 1), 4));
    ThereLaw(core, h0, s.line, wait);
    WaitingLaw(core, h0, GoUnless(s.line, wait), usec);
    ThereLaw(core, h0, WaitThere(s.line, wait, usec), end);
  }

  /** So is one that XWAIT names: the wait state at once, the end state after the wait. */
  lemma LostLaw(core: Hardware.Core, h0: Hardware.Hw, s: Snap, data: seq<byte>, device: History -> bv16)
    requires Reads(s, data, 23) && InStep(core, h0, s.line)
    ensures var p, r := Operands(s, data), Run(s, data, device);
            var q := After(data, p, 1);
            var wait, end := At(data, p), At(data, q);
            && (wait > 0x0F ==> r.halt == EndlessWalk && r.line == s.line)
            && (wait <= 0x0F < end ==>
                  && r.halt == EndlessWalk && r.error == NoError && InStep(core, h0, r.line)
                  && (!Refused(s.line.tap, wait) ==>
                        && TapOf(core, h0, r.line) == wait
                        && WaitsOf(core, h0, r.line)
                           == WaitsOf(core, h0, s.line) + [Event.Wait(StateOf(wait), Value(Take(data, After(data, q, 1), 4)))]))
  {
    hide Goto, Events, Waits, Hardware.Run, Ports.Wait, Take, Value;
    var q := After(data, Operands(s, data), 1);
    var wait: nat, end: nat := At(data, Operands(s, data)), At(data, q);
    if wait <= 0x0F < end {
      ThereLaw(core, h0, s.line, wait);
      WaitingLaw(core, h0, GoUnless(s.line, wait), Value(Take(data, After(data, q, 1), 4)));
    }
  }

  lemma ThereLaw(core: Hardware.Core, h0: Hardware.Hw, l: Line, target: nat)
    requires InStep(core, h0, l) && target <= Tap.UPDATEIR
    ensures var r := GoUnless(l, target);
            && InStep(core, h0, r) && WaitsOf(core, h0, r) == WaitsOf(core, h0, l)
            && (!Refused(l.tap, target) ==> TapOf(core, h0, r) == target == r.tap)
  {
    hide Goto, Events, Waits, Hardware.Run;
    GotoInStep(core, h0, l, target);
    GotoWaits(core, h0, l, target);
  }

  lemma WaitingLaw(core: Hardware.Core, h0: Hardware.Hw, l: Line, usec: nat)
    requires InStep(core, h0, l)
    ensures var r := Line(Ports.Wait(l.wire, usec), l.tap);
            && InStep(core, h0, r) && WaitsOf(core, h0, r) == WaitsOf(core, h0, l) + [Event.Wait(StateOf(l.tap), usec)]
  {
    hide Events, Waits;
    WaitTracks(l, usec);
    WaitEvents(core, h0, l.wire, usec);
    var s := Hardware.Run(core, h0, l.wire.log).tap;
    OneState(s, l.tap);
    WaitsJoin(Events(core, h0, l.wire.log), [Event.Wait(s, usec)]);
    OneWait(Event.Wait(s, usec));
  }

  // ----- commands that scan -----

  /** r differs from s by one shift of that job. */
  ghost predicate Shifted(s: Snap, r: Snap, device: History -> bv16, b: Bench, job: Job)
    requires b.Valid() && job.Valid()
  {
    var o := Retry.Shift(device, b, job);
    && r.line == o.bench.line && r.error == o.error
    && r.captured == if !job.capture then s.captured else Val(o.bench.captured, if job.n == 0 then s.captured.len else |job.v|)
  }

  /** Some attempt captures the expected bits. */
  ghost predicate Found(device: History -> bv16, b: Bench, job: Job)
    requires b.Valid() && job.Valid() && job.n > 0
  {
    exists k :: 0 <= k <= job.maxRepeat && Succeeds(device, b, job, k)
  }

  /** XSIR: the length in bits is one byte. */
  lemma InstructionLaw(s: Snap, data: seq<byte>, device: History -> bv16)
    requires Reads(s, data, 2)
    ensures var p, r := Operands(s, data), Run(s, data, device);
            var q, n: nat := After(data, p, 1), At(data, p);
            var v := Take(data, q, (n + 7) / 8);
            && r == Counted(s, 2, After(data, q, (n + 7) / 8)).(line := r.line, tdi := r.tdi, error := r.error)
            && r.tdi.View() == v
            && Shifted(s, r, device, Bench(s.line, NoBuffer(), s.runTest), Job(0x0B, v, n, false, Ignore, s.endIR, 0))
  {
    hide Retry.Shift, Take;
  }

  /** XSIR2: it is two, and too many bytes are refused with nothing shifted. */
  lemma LongInstructionLaw(s: Snap, data: seq<byte>, device: History -> bv16)
    requires Reads(s, data, 21)
    ensures var p, r := Operands(s, data), Run(s, data, device);
            var q, n := After(data, p, 2), Value(Take(data, p, 2));
            if (n + 7) / 8 > MAX_LEN then r == Counted(s, 21, q).(tdi := r.tdi, error := DataOverflow)
            else
              var v := Take(data, q, (n + 7) / 8);
              && r == Counted(s, 21, After(data, q, (n + 7) / 8)).(line := r.line, tdi := r.tdi, error := r.error)
              && r.tdi.View() == v
              && Shifted(s, r, device, Bench(s.line, NoBuffer(), s.runTest), Job(0x0B, v, n, false, Ignore, s.endIR, 0))
  {
    hide Retry.Shift, Take, Value;
  }

  /** A data shift of the TDI value just read. */
  lemma PlayDRShifts(s: Snap, data: seq<byte>, device: History -> bv16, compare: bool, masked: bool, end: nat, runTest: nat,
                     repeats: byte)
    requires s.Valid(data) && s.error == NoError && s.Sized() && (end == s.endDR || end == 0x04)
    ensures var r := PlayDR(s, data, device, compare, masked, end, runTest, repeats);
            var e := if !compare then Ignore else Expect(s.expected.View(), if masked then Under(s.mask.buf) else NoMask);
            && r == s.(line := r.line, captured := r.captured, error := r.error)
            && Shifted(s, r, device, Bench(s.line, if compare then s.captured.buf else NoBuffer(), runTest),
                       Job(0x04, s.tdi.View(), s.bits, compare, e, end, repeats))
  {
    hide Retry.Shift;
  }

  /** XSDR: what was last expected is expected again, under the mask. */
  lemma DataLaw(s: Snap, data: seq<byte>, device: History -> bv16)
    requires Reads(s, data, 3) && s.Fits()
    ensures var p, r := Operands(s, data), Run(s, data, device);
            var v := Take(data, p, s.bytes);
            && r == Counted(s, 3, After(data, p, s.bytes)).(line := r.line, tdi := r.tdi, captured := r.captured, error := r.error)
            && r.tdi.View() == v
            && Shifted(s, r, device, Bench(s.line, s.captured.buf, s.runTest),
                       Job(0x04, v, s.bits, true, Expect(s.expected.View(), Under(s.mask.buf)), s.endDR, s.maxRepeat))
  {
    hide Retry.Shift, PlayDR, Take, Job.Valid;
    var u := LoadTdi(Counted(s, 3, Operands(s, data)), data, s.bytes);
    PlayDRShifts(u, data, device, true, true, s.endDR, s.runTest, s.maxRepeat);
  }

  /** XSDRTDO: the TDI value comes before the expected one. */
  lemma ExpectLaw(s: Snap, data: seq<byte>, device: History -> bv16)
    requires Reads(s, data, 9) && s.Fits()
    ensures var p, r := Operands(s, data), Run(s, data, device);
            var q := After(data, p, s.bytes);
            var v, e := Take(data, p, s.bytes), Take(data, q, s.bytes);
            && r == Counted(s, 9, After(data, q, s.bytes)).(line := r.line, tdi := r.tdi, expected := r.expected,
                                                            captured := r.captured, error := r.error)
            && r.tdi.View() == v && r.expected.View() == e
            && Shifted(s, r, device, Bench(s.line, s.captured.buf, s.runTest),
                       Job(0x04, v, s.bits, true, Expect(e, Under(s.mask.buf)), s.endDR, s.maxRepeat))
  {
    hide Retry.Shift, PlayDR, Take, Job.Valid;
    var u := LoadBoth(Counted(s, 9, Operands(s, data)), data);
    PlayDRShifts(u, data, device, true, true, s.endDR, s.runTest, s.maxRepeat);
  }

  /** XSDRB, XSDRC, XSDRE: nothing is compared, there is no wait, and only the last leaves Shift-DR. */
  lemma SplitLaw(s: Snap, data: seq<byte>, device: History -> bv16, c: byte)
    requires Reads(s, data, c) && 12 <= c <= 14 && s.Fits()
    ensures var p, r := Operands(s, data), Run(s, data, device);
            var v := Take(data, p, s.bytes);
            && r == Counted(s, c, After(data, p, s.bytes)).(line := r.line, tdi := r.tdi, error := r.error)
            && r.tdi.View() == v
            && Shifted(s, r, device, Bench(s.line, NoBuffer(), 0),
                       Job(0x04, v, s.bits, false, Ignore, if c == 14 then s.endDR else 0x04, 0))
  {
    hide Retry.Shift, PlayDR, Take, Job.Valid;
    var u := LoadTdi(Counted(s, c, Operands(s, data)), data, s.bytes);
    PlayDRShifts(u, data, device, false, false, if c == 14 then s.endDR else 4, 0, 0);
  }

  /** XSDRTDOB, XSDRTDOC, XSDRTDOE: every bit is compared, there is no wait or repeat. */
  lemma SplitExpectLaw(s: Snap, data: seq<byte>, device: History -> bv16, c: byte)
    requires Reads(s, data, c) && 15 <= c <= 17 && s.Fits()
    ensures var p, r := Operands(s, data), Run(s, data, device);
            var q := After(data, p, s.bytes);
            var v, e := Take(data, p, s.bytes), Take(data, q, s.bytes);
            && r == Counted(s, c, After(data, q, s.bytes)).(line := r.line, tdi := r.tdi, expected := r.expected,
                                                            captured := r.captured, error := r.error)
            && r.tdi.View() == v && r.expected.View() == e
            && Shifted(s, r, device, Bench(s.line, s.captured.buf, 0),
                       Job(0x04, v, s.bits, true, Expect(e, NoMask), if c == 17 then s.endDR else 0x04, 0))
  {
    hide Retry.Shift, PlayDR, Take, Job.Valid;
    var u := LoadBoth(Counted(s, c, Operands(s, data)), data);
    PlayDRShifts(u, data, device, true, false, if c == 17 then s.endDR else 4, 0, 0);
  }

  /** The code of such a scan, in bits: it is NONE if and only if some attempt captured a one or zero as
      expected wherever the mask has a one. */
  lemma ScanCode(s: Snap, r: Snap, device: History -> bv16, b: Bench, job: Job)
    requires b.Valid() && job.Valid() && job.n > 0 && Shifted(s, r, device, b, job)
    ensures r.error == NoError <==> Found(device, b, job)
    ensures r.error == NoError || r.error == if 1 <= job.maxRepeat <= 254 then MaxRetries else TdoMismatch
  {
    hide Retry.Shift, Succeeds, Job.Valid;
    RetryLaw(device, b, job);
  }

  /** As many bytes as so many pieces of n have. */
  function Total(times: nat, n: nat): nat {
    times * n
  }

  lemma PiecesTotal(times: nat, n: nat)
    ensures Total(0, n) == 0 && (times > 0 ==> Total(times, n) == n + Total(times - 1, n))
  {
  }

  /** XSDRINC: the first word, one byte that says how many pieces follow, and the pieces; the words they make are
      shifted one by one up to the first failure. What the words are, `SeriesLaws.WordLaw` says. */
  lemma IncLaw(s: Snap, data: seq<byte>, device: History -> bv16, n: nat)
    requires Reads(s, data, 11) && s.Fits() && s.dataMask.len <= 255 && SeriesLaws.Holds(s.dataMask.View(), n)
    ensures var p, r := Operands(s, data), Run(s, data, device);
            var q := After(data, p, s.bytes);
            var words := SeriesLaws.IncOperands(Counted(s, 11, p), data);
            var v := Take(data, p, s.bytes);
            var o := Series(device, Bench(s.line, s.captured.buf, s.runTest),
                            Job(0x04, v, s.bits, true, Expect(s.expected.View(), Under(s.mask.buf)), s.endDR, s.maxRepeat), words);
            && |words| == 1 + At(data, q) && words[0] == v
            && r.line == o.bench.line && r.captured.buf == o.bench.captured && r.error == o.error
            && (r.error == NoError ==> r.pos == After(data, After(data, q, 1), Total(At(data, q), n)))
  {
    hide Retry.Shift, Series, IncLoop, PlayDR, Take, Masking.Ones, Job.Valid, XSDRINC, Total;
    var t := Counted(s, 11, Operands(s, data));
    SeriesLaws.XsdrincIsSeries(t, data, device);
    SeriesLaws.FirstWord(t, data);
    IncPlace(t, data, device, n);
  }

  lemma IncPlace(s: Snap, data: seq<byte>, device: History -> bv16, n: nat)
    requires s.Valid(data) && s.error == NoError && s.Fits() && s.dataMask.len <= 255 && SeriesLaws.Holds(s.dataMask.View(), n)
    ensures var r, q := XSDRINC(s, data, device), After(data, s.pos, s.bytes);
            r.error == NoError ==> r.pos == After(data, After(data, q, 1), Total(At(data, q), n))
  {
    hide IncLoop, PlayDR, Take, Masking.Ones, Total;
    var first := LoadTdi(s, data, s.bytes);
    PlayDRKeeps(first, data, device, true, true, s.endDR, s.runTest, s.maxRepeat);
    var t := XSDR(s, data, device);
    if t.error == NoError {
      LoopPlace(t.(pos := After(data, t.pos, 1)), data, device, At(data, t.pos), n);
    }
  }

  lemma {:induction false} LoopPlace(s: Snap, data: seq<byte>, device: History -> bv16, times: nat, n: nat)
    requires s.Valid(data) && s.error == NoError && s.Sized() && SeriesLaws.Holds(s.dataMask.View(), n) && n <= MAX_LEN
    ensures var r := IncLoop(s, data, device, times); r.error == NoError ==> r.pos == After(data, s.pos, Total(times, n))
    decreases times
  {
    hide PlayDR, Take, Masking.Ones, Masking.NextWord, Load, Total;
    PiecesTotal(times, n);
    if times > 0 {
      var t := NextPiece(s, data);
      PlayDRKeeps(t, data, device, true, true, t.endDR, t.runTest, t.maxRepeat);
      var u := PlayDR(t, data, device, true, true, t.endDR, t.runTest, t.maxRepeat);
      if u.error == NoError {
        LoopPlace(u, data, device, times - 1, n);
      } else {
        StoppedLoop(u, data, device, times - 1);
      }
    }
  }

  lemma StoppedLoop(s: Snap, data: seq<byte>, device: History -> bv16, times: nat)
    requires s.Valid(data) && s.error != NoError && PieceLen(s.dataMask.View()) <= MAX_LEN
    ensures IncLoop(s, data, device, times) == s
  {
  }
}
