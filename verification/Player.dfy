/** What the commands of the XSVF player amount to (jtag/micro.c:1043-1622). */
module Commands {
  import opened Bytes
  import opened Errors
  import opened Lines
  import opened Ports
  import opened Retry
  import Hardware
  import Masking
  import Source
  import Tap

  /** Whatever the hardware started as, a true belief before is a true belief after. */
  ghost predicate Tracks(before: Line, after: Line) {
    forall core: Hardware.Core, h0: Hardware.Hw :: InStep(core, h0, before) ==> InStep(core, h0, after)
  }

  lemma ShiftTracks(device: History -> bv16, b: Bench, job: Job)
    requires b.Valid() && job.Valid()
    ensures Tracks(b.line, Retry.Shift(device, b, job).bench.line)
  {
    hide InStep, Retry.Shift;
    forall core: Hardware.Core, h0: Hardware.Hw | InStep(core, h0, b.line)
      ensures InStep(core, h0, Retry.Shift(device, b, job).bench.line)
    {
      ShiftEndsIn(device, core, h0, b, job);
    }
  }

  lemma GotoTracks(l: Line, target: nat)
    requires l.tap <= Tap.UPDATEIR && target <= Tap.UPDATEIR
    ensures Tracks(l, Goto(l, target))
  {
    hide InStep, Goto;
    forall core: Hardware.Core, h0: Hardware.Hw | InStep(core, h0, l)
      ensures InStep(core, h0, Goto(l, target))
    {
      GotoInStep(core, h0, l, target);
    }
  }

  lemma WaitTracks(l: Line, usec: nat)
    ensures Tracks(l, Line(Wait(l.wire, usec), l.tap))
  {
    hide Wait;
    forall core: Hardware.Core, h0: Hardware.Hw | InStep(core, h0, l)
      ensures InStep(core, h0, Line(Wait(l.wire, usec), l.tap))
    {
      Hardware.QuietWait(core, h0, l.wire, usec);
      WaitKeepsTms(l.wire, usec);
    }
  }

  lemma WaitKeepsTms(w: Wire, usec: nat)
    ensures Wait(w, usec).pins == w.pins.(tck := false)
  {
  }

  /** After the reset sequence the belief is true of any hardware. */
  lemma ResetTrue(l: Line)
    requires l.tap <= Tap.UPDATEIR
    ensures Goto(l, Tap.RESET) == ResetLine(l)
    ensures forall core: Hardware.Core, h0: Hardware.Hw :: InStep(core, h0, ResetLine(l))
  {
    hide InStep, ResetLine;
    forall core: Hardware.Core, h0: Hardware.Hw
      ensures InStep(core, h0, ResetLine(l))
    {
      ResetSynchronises(core, h0, l);
    }
  }

  function GoUnless(l: Line, target: nat): (r: Line)
    requires l.tap <= Tap.UPDATEIR && target <= Tap.UPDATEIR
    ensures r.tap <= Tap.UPDATEIR
  {
    if l.tap == target then l else Goto(l, target)
  }

  /** XWAIT (jtag/micro.c:1583-1622): each navigation is skipped when already there. */
  function WaitThere(l: Line, waitState: nat, usec: nat): (r: Line)
    requires l.tap <= Tap.UPDATEIR && waitState <= Tap.UPDATEIR
    ensures r.tap <= Tap.UPDATEIR
  {
    var there := GoUnless(l, waitState);
    Line(Wait(there.wire, usec), there.tap)
  }

  function WaitIn(l: Line, waitState: nat, usec: nat, endState: nat): Line
    requires l.tap <= Tap.UPDATEIR && waitState <= Tap.UPDATEIR && endState <= Tap.UPDATEIR
  {
    GoUnless(WaitThere(l, waitState, usec), endState)
  }

  lemma WaitThereTracks(l: Line, waitState: nat, usec: nat)
    requires l.tap <= Tap.UPDATEIR && waitState <= Tap.UPDATEIR
    ensures Tracks(l, WaitThere(l, waitState, usec))
  {
    hide InStep, Goto, Wait;
    GotoTracks(l, waitState);
    WaitTracks(GoUnless(l, waitState), usec);
  }

  lemma WaitInTracks(l: Line, waitState: nat, usec: nat, endState: nat)
    requires l.tap <= Tap.UPDATEIR && waitState <= Tap.UPDATEIR && endState <= Tap.UPDATEIR
    ensures Tracks(l, WaitIn(l, waitState, usec, endState))
  {
    hide InStep, Goto, WaitThere;
    WaitThereTracks(l, waitState, usec);
    GotoTracks(WaitThere(l, waitState, usec), endState);
  }

  /** An explicit series of words shifted one after another, each with the run-test time the stream
      specified, up to the first that fails. */
  function Series(device: History -> bv16, b: Bench, job: Job, words: seq<seq<byte>>): (r: Out)
    requires b.Valid() && job.Valid()
    requires forall w <- words :: |w| == |job.v|
    ensures r.bench.Valid()
    decreases |words|
  {
    if words == [] then Out(b, NoError, 0)
    else
      var o := Retry.Shift(device, b, job.(v := words[0]));
      if o.error != NoError then o
      else Series(device, o.bench.(runTest := b.runTest), job, words[1..])
  }

  /** The whole TDI buffer after k pieces of next data have been read from `pos` on and masked in. */
  function IncBuffer(data: seq<byte>, pos: nat, buf: seq<byte>, len: nat, address: seq<byte>, m: seq<byte>, k: nat): (r: seq<byte>)
    requires pos <= |data| && len <= |buf| && len <= |address| && |m| <= |buf|
    ensures |r| == |buf|
  {
    if k == 0 then buf
    else Masking.NextWord(IncBuffer(data, pos, buf, len, address, m, k - 1), len, address, m,
                          Piece(data, pos, m, k - 1))
  }

  function PieceLen(m: seq<byte>): (n: nat)
    ensures Masking.Ones(m, 8 * |m|) <= 8 * n < Masking.Ones(m, 8 * |m|) + 8
  {
    (Masking.Ones(m, 8 * |m|) + 7) / 8
  }

  /** The k-th piece of next data of an XSDRINC command. */
  function Piece(data: seq<byte>, pos: nat, m: seq<byte>, k: nat): (d: seq<byte>)
    requires pos <= |data|
    ensures |d| == PieceLen(m)
  {
    Source.Take(data, pos + k * PieceLen(m), PieceLen(m))
  }

  /** The words an XSDRINC command stands for: the first one, then one per piece. */
  function IncWords(data: seq<byte>, pos: nat, buf: seq<byte>, len: nat, address: seq<byte>, m: seq<byte>, times: nat): (r: seq<seq<byte>>)
    requires pos <= |data| && len <= |buf| && len <= |address| && |m| <= |buf|
    ensures |r| == times + 1
    ensures forall w <- r :: |w| == len
  {
    seq(times + 1, k requires 0 <= k < times + 1 => IncBuffer(data, pos, buf, len, address, m, k)[..len])
  }

  /** The place of the next zero byte, or the end of the data if there is none. */
  function ZeroFrom(data: seq<byte>, pos: nat): (z: nat)
    requires pos <= |data|
    ensures pos <= z <= |data|
    decreases |data| - pos
  {
    if pos == |data| || data[pos] == 0 then pos else ZeroFrom(data, pos + 1)
  }
}

/** The whole player as a function on snapshots of `SXsvfInfo`, the line and the stream position. */
module PlayerSpec {
  import opened Bytes
  import opened Commands
  import opened Errors
  import opened LenVals
  import opened Lines
  import opened Ports
  import opened Retry
  import opened Source
  import Masking
  import Tap

  /** Why the model went no further: an operand on which the source never returns, or a command that reads or
      writes outside a buffer, after which nothing can be said of the source. */
  datatype Halt = Live | EndlessWalk | EndlessComment | EndlessCount | Overrun {
    predicate Endless() {
      EndlessWalk? || EndlessComment? || EndlessCount?
    }
  }

  const MAX_SHORT: nat := 32767

  /** `xsvfGetAsNumBytes` before its result is cut to a short. */
  function AsNumBytes(bits: nat): (n: nat)
    ensures bits <= 8 * n < bits + 8
  {
    (bits + 7) / 8
  }

  /** And after. */
  function ShortBytes(bits: nat): (r: int)
    ensures r == AsNumBytes(bits) <==> AsNumBytes(bits) <= MAX_SHORT
    ensures r % 65536 == AsNumBytes(bits) % 65536 && -32768 <= r <= 32767
  {
    var low := AsNumBytes(bits) % 65536;
    if low > MAX_SHORT then low - 65536 else low
  }

  datatype Val = Val(buf: seq<byte>, len: nat) {
    ghost predicate Valid() {
      |buf| == MAX_LEN + 1 && len <= MAX_LEN
    }

    function View(): seq<byte>
      requires len <= |buf|
    {
      buf[..len]
    }
  }

  datatype Snap = Snap(
    complete: bool, command: byte, count: nat, error: Error, halt: Halt,
    line: Line, endIR: nat, endDR: nat, maxRepeat: byte, runTest: nat, bits: nat, bytes: int,
    tdi: Val, expected: Val, captured: Val, mask: Val, address: Val, dataMask: Val, next: Val,
    pos: nat)
  {
    /** `xsvfRun` reads another command. */
    predicate Running() {
      error == NoError && !complete && halt == Live
    }

    /** The byte count, a short, was not cut. */
    predicate Fits() {
      bytes == AsNumBytes(bits)
    }

    /** And the TDI value has been read with it. */
    predicate Sized() {
      Fits() && tdi.len == bytes
    }

    ghost predicate Valid(data: seq<byte>) {
      && tdi.Valid() && expected.Valid() && captured.Valid() && mask.Valid() && address.Valid() && dataMask.Valid()
      && next.Valid() && line.tap <= Tap.UPDATEIR && pos <= |data|
      && (endIR == Tap.RUNTEST || endIR == Tap.PAUSEIR) && (endDR == Tap.RUNTEST || endDR == Tap.PAUSEDR)
      && (error == NoError ==> bytes == ShortBytes(bits) <= MAX_LEN)
    }
  }

  /** A value after n bytes are read into it. */
  function Load(v: Val, data: seq<byte>, pos: nat, n: nat): (r: Val)
    requires v.Valid() && n <= MAX_LEN
    ensures r.Valid() && r.View() == Take(data, pos, n)
  {
    var b := Take(data, pos, n) + v.buf[n..];
    assert b[..n] == Take(data, pos, n);
    Val(b, n)
  }

  function LoadTdi(s: Snap, data: seq<byte>, n: nat): (r: Snap)
    requires s.Valid(data) && n <= MAX_LEN
    ensures r.Valid(data)
  {
    s.(tdi := Load(s.tdi, data, s.pos, n), pos := After(data, s.pos, n))
  }

  function StatesReset(s: Snap): Snap {
    s.(line := s.line.(tap := Tap.RESET), endIR := Tap.RUNTEST, endDR := Tap.RUNTEST)
  }

  /** `xsvfInfoInit`, but for the buffers. */
  function Initial(s: Snap): Snap {
    StatesReset(s.(complete := false, command := 0, error := NoError, halt := Live, count := 0, maxRepeat := 0, runTest := 0,
                   bits := 0, bytes := 0))
  }

  /** Record an error; success leaves the code alone. */
  function Failed(s: Snap, error: Error): Snap {
    if error == NoError then s else s.(error := error)
  }

  function DrJob(s: Snap, compare: bool, masked: bool, end: nat, repeats: byte): Job
    requires s.tdi.Valid() && s.expected.Valid()
  {
    Job(Tap.SHIFTDR, s.tdi.View(), s.bits, compare,
        if compare then Expect(s.expected.View(), if masked then Under(s.mask.buf) else NoMask) else Ignore, end, repeats)
  }

  function IrJob(s: Snap, bits: nat): Job
    requires s.tdi.Valid()
  {
    Job(Tap.SHIFTIR, s.tdi.View(), bits, false, Ignore, s.endIR, 0)
  }

  /** What comes of a shift of the TDI value. */
  function DrOut(s: Snap, data: seq<byte>, device: History -> bv16, compare: bool, masked: bool, end: nat, runTest: nat,
                 repeats: byte): (o: Out)
    requires s.Valid(data) && s.error == NoError && s.Sized() && (end == s.endDR || end == Tap.SHIFTDR)
    ensures o.bench.Valid()
  {
    Retry.Shift(device, Bench(s.line, if compare then s.captured.buf else NoBuffer(), runTest),
                DrJob(s, compare, masked, end, repeats))
  }

  /** The player after it. */
  function Landed(s: Snap, data: seq<byte>, o: Out, compare: bool): (r: Snap)
    requires s.Valid(data) && s.error == NoError && o.bench.Valid()
    ensures r.Valid(data) && r.pos == s.pos
  {
    var captured := if compare then Val(o.bench.captured, if s.bits == 0 then s.captured.len else s.tdi.len) else s.captured;
    Failed(s.(line := o.bench.line, captured := captured), o.error)
  }

  /** Shift the TDI value into the data register. */
  function PlayDR(s: Snap, data: seq<byte>, device: History -> bv16, compare: bool, masked: bool, end: nat, runTest: nat,
                  repeats: byte): (r: Snap)
    requires s.Valid(data) && s.error == NoError && s.Sized() && (end == s.endDR || end == Tap.SHIFTDR)
    ensures r.Valid(data) && r.pos == s.pos
  {
    Landed(s, data, DrOut(s, data, device, compare, masked, end, runTest, repeats), compare)
  }

  function IrOut(s: Snap, data: seq<byte>, device: History -> bv16, bits: nat): (o: Out)
    requires s.Valid(data) && bits <= 8 * s.tdi.len
    ensures o.bench.Valid()
  {
    Retry.Shift(device, Bench(s.line, NoBuffer(), s.runTest), IrJob(s, bits))
  }

  function PlayIR(s: Snap, data: seq<byte>, device: History -> bv16, bits: nat): (r: Snap)
    requires s.Valid(data) && s.error == NoError && bits <= 8 * s.tdi.len
    ensures r.Valid(data) && r.pos == s.pos
  {
    Landed(s, data, IrOut(s, data, device, bits), false)
  }

  // ----- the commands -----

  function XTDOMASK(s: Snap, data: seq<byte>): (r: Snap)
    requires s.Valid(data) && s.error == NoError
    ensures r.Valid(data)
  {
    if s.bytes < 0 then s.(halt := Overrun)
    else s.(mask := Load(s.mask, data, s.pos, s.bytes), pos := After(data, s.pos, s.bytes))
  }

  function XSIR(s: Snap, data: seq<byte>, device: History -> bv16): (r: Snap)
    requires s.Valid(data) && s.error == NoError
    ensures r.Valid(data)
  {
    var bits: nat := At(data, s.pos);
    PlayIR(LoadTdi(s.(pos := After(data, s.pos, 1)), data, AsNumBytes(bits)), data, device, bits)
  }

  function XSIR2(s: Snap, data: seq<byte>, device: History -> bv16): (r: Snap)
    requires s.Valid(data) && s.error == NoError
    ensures r.Valid(data)
  {
    var t := LoadTdi(s, data, 2);
    var bits := Value(t.tdi.View());
    if AsNumBytes(bits) > MAX_LEN then t.(error := DataOverflow)
    else PlayIR(LoadTdi(t, data, AsNumBytes(bits)), data, device, bits)
  }

  function XSDR(s: Snap, data: seq<byte>, device: History -> bv16): (r: Snap)
    requires s.Valid(data) && s.error == NoError
    ensures r.Valid(data)
  {
    if !s.Fits() then s.(halt := Overrun)
    else PlayDR(LoadTdi(s, data, s.bytes), data, device, true, true, s.endDR, s.runTest, s.maxRepeat)
  }

  function XRUNTEST(s: Snap, data: seq<byte>): (r: Snap)
    requires s.Valid(data) && s.error == NoError
    ensures r.Valid(data)
  {
    var t := LoadTdi(s, data, 4);
    t.(runTest := Value(t.tdi.View()))
  }

  function XREPEAT(s: Snap, data: seq<byte>): (r: Snap)
    requires s.Valid(data) && s.error == NoError
    ensures r.Valid(data)
  {
    s.(maxRepeat := At(data, s.pos), pos := After(data, s.pos, 1))
  }

  function XSDRSIZE(s: Snap, data: seq<byte>): (r: Snap)
    requires s.Valid(data) && s.error == NoError
    ensures r.Valid(data)
  {
    var t := LoadTdi(s, data, 4);
    var bits := Value(t.tdi.View());
    WithSize(t, bits)
  }

  /** Both sizes, the second cut to a short before it is looked at. */
  function WithSize(s: Snap, bits: nat): Snap {
    var t := s.(bits := bits, bytes := ShortBytes(bits));
    if t.bytes > MAX_LEN then t.(error := DataOverflow) else t
  }

  /** XSDRTDO and its begin, continue and end forms share the reading of both values. */
  function LoadBoth(s: Snap, data: seq<byte>): (r: Snap)
    requires s.Valid(data) && s.error == NoError && s.Fits()
    ensures r.Valid(data) && r.error == NoError && r.Sized() && r.endDR == s.endDR
  {
    var t := LoadTdi(s, data, s.bytes);
    t.(expected := Load(t.expected, data, t.pos, t.bytes), pos := After(data, t.pos, t.bytes))
  }

  function XSDRTDO(s: Snap, data: seq<byte>, device: History -> bv16): (r: Snap)
    requires s.Valid(data) && s.error == NoError
    ensures r.Valid(data)
  {
    if !s.Fits() then s.(halt := Overrun)
    else PlayDR(LoadBoth(s, data), data, device, true, true, s.endDR, s.runTest, s.maxRepeat)
  }

  function XSDRBCE(s: Snap, data: seq<byte>, device: History -> bv16, last: bool): (r: Snap)
    requires s.Valid(data) && s.error == NoError
    ensures r.Valid(data)
  {
    if !s.Fits() then s.(halt := Overrun)
    else PlayDR(LoadTdi(s, data, s.bytes), data, device, false, false, if last then s.endDR else Tap.SHIFTDR, 0, 0)
  }

  function XSDRTDOBCE(s: Snap, data: seq<byte>, device: History -> bv16, last: bool): (r: Snap)
    requires s.Valid(data) && s.error == NoError
    ensures r.Valid(data)
  {
    if !s.Fits() then s.(halt := Overrun)
    else PlayDR(LoadBoth(s, data), data, device, true, false, if last then s.endDR else Tap.SHIFTDR, 0, 0)
  }

  function XSETSDRMASKS(s: Snap, data: seq<byte>): (r: Snap)
    requires s.Valid(data) && s.error == NoError
    ensures r.Valid(data)
  {
    if s.bytes < 0 then s.(halt := Overrun)
    else
      var p := After(data, s.pos, s.bytes);
      s.(address := Load(s.address, data, s.pos, s.bytes), dataMask := Load(s.dataMask, data, p, s.bytes),
         pos := After(data, p, s.bytes))
  }

  /** Read one piece of next data and mask it into the TDI value. */
  function NextPiece(s: Snap, data: seq<byte>): (r: Snap)
    requires s.Valid(data) && PieceLen(s.dataMask.View()) <= MAX_LEN
    ensures r.Valid(data)
  {
    var n := PieceLen(s.dataMask.View());
    var d := Load(s.next, data, s.pos, n);
    s.(next := d, pos := After(data, s.pos, n),
       tdi := Val(Masking.NextWord(s.tdi.buf, s.tdi.len, s.address.buf, s.dataMask.View(), d.View()), s.tdi.len))
  }

  /** The loop of XSDRINC with `times` pieces to go. */
  function IncLoop(s: Snap, data: seq<byte>, device: History -> bv16, times: nat): (r: Snap)
    requires s.Valid(data) && (s.error == NoError ==> s.Sized()) && PieceLen(s.dataMask.View()) <= MAX_LEN
    ensures r.Valid(data)
    decreases times
  {
    if s.error != NoError || times == 0 then s
    else
      IncLoop(PlayDR(NextPiece(s, data), data, device, true, true, s.endDR, s.runTest, s.maxRepeat), data, device, times - 1)
  }

  /** The number of pieces, and the pieces. */
  function AllPieces(s: Snap, data: seq<byte>, device: History -> bv16): (r: Snap)
    requires s.Valid(data) && s.error == NoError && s.Sized() && s.dataMask.len <= 255
    ensures r.Valid(data)
  {
    IncLoop(s.(pos := After(data, s.pos, 1)), data, device, At(data, s.pos))
  }

  function XSDRINC(s: Snap, data: seq<byte>, device: History -> bv16): (r: Snap)
    requires s.Valid(data) && s.error == NoError
    ensures r.Valid(data)
  {
    if !s.Fits() then s.(halt := Overrun) else WordsAfter(XSDR(s, data, device), data, device)
  }

  /** What follows the first word. */
  function WordsAfter(s: Snap, data: seq<byte>, device: History -> bv16): (r: Snap)
    requires s.Valid(data) && (s.error == NoError ==> s.Sized())
    ensures r.Valid(data)
  {
    if s.error != NoError then s
    else if s.dataMask.len > 255 then s.(halt := EndlessCount)
    else AllPieces(s, data, device)
  }

  function XSTATE(s: Snap, data: seq<byte>): (r: Snap)
    requires s.Valid(data) && s.error == NoError
    ensures r.Valid(data)
  {
    var target := At(data, s.pos);
    var t := s.(pos := After(data, s.pos, 1));
    if target > Tap.UPDATEIR then t.(halt := EndlessWalk)
    else
      Failed(t.(line := Goto(s.line, target)),
             if target != Tap.RESET && Tap.Illegal(s.line.tap, target) then IllegalState else NoError)
  }

  function XENDXR(s: Snap, data: seq<byte>, ir: bool): (r: Snap)
    requires s.Valid(data) && s.error == NoError
    ensures r.Valid(data)
  {
    EndNamed(s.(pos := After(data, s.pos, 1)), At(data, s.pos), ir)
  }

  /** 0 names Run-Test/Idle and 1 the pause state of the column. */
  function EndNamed(s: Snap, end: byte, ir: bool): Snap {
    if end != 0 && end != 1 then s.(error := IllegalState)
    else if ir then s.(endIR := if end == 0 then Tap.RUNTEST else Tap.PAUSEIR)
    else s.(endDR := if end == 0 then Tap.RUNTEST else Tap.PAUSEDR)
  }

  function XCOMMENT(s: Snap, data: seq<byte>): (r: Snap)
    requires s.Valid(data) && s.error == NoError
    ensures r.Valid(data)
  {
    var z := ZeroFrom(data, s.pos);
    if z == |data| then s.(halt := EndlessComment, pos := z) else s.(pos := z + 1)
  }

  /** What XWAIT does with its operands. */
  function Waited(s: Snap, waitState: nat, usec: nat, endState: nat): Snap
    requires s.line.tap <= Tap.UPDATEIR
  {
    if waitState > Tap.UPDATEIR then s.(halt := EndlessWalk)
    else if endState > Tap.UPDATEIR then s.(line := WaitThere(s.line, waitState, usec), halt := EndlessWalk)
    else s.(line := WaitIn(s.line, waitState, usec, endState))
  }

  function XWAIT(s: Snap, data: seq<byte>): (r: Snap)
    requires s.Valid(data) && s.error == NoError
    ensures r.Valid(data)
  {
    var w, e := At(data, s.pos), At(data, After(data, s.pos, 1));
    var t := LoadTdi(LoadTdi(LoadTdi(s, data, 1), data, 1), data, 4);
    Waited(t, w, Value(t.tdi.View()), e)
  }

  /** The command table (jtag/micro.c:291-323). */
  function Perform(s: Snap, data: seq<byte>, device: History -> bv16): (r: Snap)
    requires s.Valid(data) && s.error == NoError
    ensures r.Valid(data)
  {
    var c := s.command;
    if c == 0 then s.(complete := true)
    else if c == 1 then XTDOMASK(s, data)
    else if c == 2 then XSIR(s, data, device)
    else if c == 3 then XSDR(s, data, device)
    else if c == 4 then XRUNTEST(s, data)
    else if c == 7 then XREPEAT(s, data)
    else if c == 8 then XSDRSIZE(s, data)
    else if c == 9 then XSDRTDO(s, data, device)
    else if c == 10 then XSETSDRMASKS(s, data)
    else if c == 11 then XSDRINC(s, data, device)
    else if c == 12 || c == 13 || c == 14 then XSDRBCE(s, data, device, c == 14)
    else if c == 15 || c == 16 || c == 17 then XSDRTDOBCE(s, data, device, c == 17)
    else if c == 18 then XSTATE(s, data)
    else if c == 19 || c == 20 then XENDXR(s, data, c == 19)
    else if c == 21 then XSIR2(s, data, device)
    else if c == 22 then XCOMMENT(s, data)
    else if c == 23 then XWAIT(s, data)
    else s.(error := IllegalCmd)
  }

  function Fetched(s: Snap, data: seq<byte>): (r: Snap)
    requires s.Valid(data)
    ensures r.Valid(data)
  {
    s.(command := At(data, s.pos), count := s.count + 1, pos := After(data, s.pos, 1))
  }

  /** `xsvfRun`: one command, unless the player has stopped. */
  function Run(s: Snap, data: seq<byte>, device: History -> bv16): (r: Snap)
    requires s.Valid(data)
    ensures r.Valid(data)
  {
    if !s.Running() then s else Perform(Fetched(s, data), data, device)
  }

  /** n commands. */
  function Runs(s: Snap, data: seq<byte>, device: History -> bv16, n: nat): (r: Snap)
    requires s.Valid(data)
    ensures r.Valid(data)
  {
    if n == 0 then s else Run(Runs(s, data, device, n - 1), data, device)
  }
}
