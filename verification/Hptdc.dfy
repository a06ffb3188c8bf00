/** The hand-coded JTAG walk that programs the HPTDC chip (ctr/driver/ctrdrvr-pci.c:1117-1260), against the
    same TAP controller and scan registers as the XSVF player. */
module HptdcSpec {
  import opened Packing
  import Hardware
  import Ports
  import Tap

  /** One write of the JTAG register. */
  datatype Jtag = Jtag(trst: bool, tck: bool, tms: bool, tdi: bool)

  datatype Log = Nothing | Written(before: Log, word: Jtag)

  /** TRST is active low; otherwise the chip is clocked like any other. */
  function React(core: Hardware.Core, h: Hardware.Hw, w: Jtag): Hardware.Hw {
    if !w.trst then h.(tap := Tap.TestLogicReset, tck := w.tck)
    else Hardware.React(core, h, Ports.Drive(Ports.Pins(w.tck, w.tms, w.tdi)))
  }

  function Run(core: Hardware.Core, h: Hardware.Hw, log: Log): Hardware.Hw {
    match log
    case Nothing => h
    case Written(before, w) => React(core, Run(core, h, before), w)
  }

  datatype Edge = Edge(tms: bool, tdi: bool)

  /** TDI and TMS set up, then TCK up: where TDO is read. */
  function Raised(log: Log, e: Edge): Log {
    Written(Written(log, Jtag(true, false, e.tms, e.tdi)), Jtag(true, true, e.tms, e.tdi))
  }

  /** `HptdcBitTransfer`. */
  function Transfer(log: Log, e: Edge): Log {
    Written(Raised(log, e), Jtag(true, false, e.tms, e.tdi))
  }

  function Transfers(log: Log, edges: seq<Edge>): Log {
    if edges == [] then log else Transfer(Transfers(log, edges[..|edges| - 1]), edges[|edges| - 1])
  }

  lemma {:induction false} TransfersJoin(log: Log, a: seq<Edge>, b: seq<Edge>)
    ensures Transfers(log, a + b) == Transfers(Transfers(log, a), b)
  {
    if b == [] {
      assert a + b == a;
    } else {
      assert (a + b)[..|a + b| - 1] == a + b[..|b| - 1];
      TransfersJoin(log, a, b[..|b| - 1]);
    }
  }

  /** `HptdcStateReset`. */
  function ResetLog(log: Log): Log {
    var w := Written(Written(log, Jtag(true, false, false, false)), Jtag(false, false, false, false));
    var v := Written(Written(w, Jtag(false, true, false, false)), Jtag(true, true, false, false));
    Transfer(Written(v, Jtag(true, false, false, false)), Edge(false, false))
  }

  // ----- what is sent -----

  /** `HptdcRegisterVlaue`: no more than 32 bits, possibly none. */
  datatype Reg = Reg(value: Word, startBit: nat, endBit: nat) {
    predicate Valid() {
      startBit <= endBit + 1 <= startBit + 32
    }

    function Width(): (n: nat)
      requires Valid()
      ensures n <= 32
    {
      endBit - startBit + 1
    }
  }

  const CMD_BITS: nat := 4

  /** The n low bits, the last one with TMS up if `closing`. */
  function BitEdges(value: Word, n: nat, closing: bool): (r: seq<Edge>)
    requires n <= 32
    ensures |r| == n
  {
    seq(n, i requires 0 <= i < n => Edge(closing && i == n - 1, value[i]))
  }

  ghost predicate AllValid(regs: seq<Reg>) {
    forall j :: 0 <= j < |regs| ==> regs[j].Valid()
  }

  function Odd(bits: seq<bool>): bool {
    if bits == [] then false else Odd(bits[..|bits| - 1]) != bits[|bits| - 1]
  }

  /** The fields one after another, each least significant bit first. */
  function DataBits(regs: seq<Reg>): seq<bool>
    requires AllValid(regs)
  {
    if regs == [] then []
    else
      var r := regs[|regs| - 1];
      DataBits(regs[..|regs| - 1]) + r.value[..r.Width()]
  }

  /** Without parity every register raises TMS on its own last bit. */
  function DataEdges(regs: seq<Reg>, pflg: bool): seq<Edge>
    requires AllValid(regs)
  {
    if regs == [] then []
    else
      var r := regs[|regs| - 1];
      DataEdges(regs[..|regs| - 1], pflg) + BitEdges(r.value, r.Width(), !pflg)
  }

  /** The registers that have bits. */
  function NonEmpty(regs: seq<Reg>): (r: seq<Reg>)
    requires AllValid(regs)
    ensures AllValid(r) && forall j :: 0 <= j < |r| ==> r[j].Width() > 0
  {
    if regs == [] then []
    else NonEmpty(regs[..|regs| - 1]) + if regs[|regs| - 1].Width() > 0 then [regs[|regs| - 1]] else []
  }

  /** The others send nothing. */
  lemma {:induction false} EmptySendNothing(regs: seq<Reg>, pflg: bool)
    requires AllValid(regs)
    ensures DataEdges(NonEmpty(regs), pflg) == DataEdges(regs, pflg) && DataBits(NonEmpty(regs)) == DataBits(regs)
  {
    hide BitEdges;
    if regs != [] {
      var before, r := regs[..|regs| - 1], regs[|regs| - 1];
      EmptySendNothing(before, pflg);
      if r.Width() > 0 {
        assert NonEmpty(regs) == NonEmpty(before) + [r];
        assert (NonEmpty(before) + [r])[..|NonEmpty(before)|] == NonEmpty(before);
      } else {
        assert NonEmpty(regs) == NonEmpty(before);
      }
    }
  }

  const TO_SHIFT_IR: seq<Edge> := [Edge(true, false), Edge(true, false), Edge(false, false), Edge(false, false)]
  const TO_SHIFT_DR: seq<Edge> := [Edge(true, false), Edge(true, false), Edge(false, false), Edge(false, false)]
  const TO_IDLE: seq<Edge> := [Edge(true, false), Edge(false, false)]

  function Head(cmd: Word): seq<Edge> {
    TO_SHIFT_IR + BitEdges(cmd, CMD_BITS, false) + [Edge(true, Odd(cmd[..CMD_BITS]))] + TO_SHIFT_DR
  }

  function Tail(regs: seq<Reg>, pflg: bool): seq<Edge>
    requires AllValid(regs)
  {
    (if pflg then [Edge(true, Odd(DataBits(regs)))] else []) + TO_IDLE
  }

  function CommandLog(log: Log, cmd: Word, regs: seq<Reg>, pflg: bool, rflg: bool): Log
    requires AllValid(regs)
  {
    var start := if rflg then ResetLog(log) else log;
    Transfers(Transfers(Transfers(start, Head(cmd)), DataEdges(regs, pflg)), Tail(regs, pflg))
  }

  /** The word whose bit i is TDO at the i-th of n edges. */
  function ReadWord(device: Log -> bool, log: Log, value: Word, n: nat, closing: bool): Word
    requires n <= 32
  {
    var edges := BitEdges(value, n, closing);
    seq(32, i requires 0 <= i < 32 => i < n && device(Raised(Transfers(log, edges[..i]), edges[i])))
  }

  /** What comes back for each register, given the log at the first data bit. */
  function ReadBack(device: Log -> bool, log: Log, regs: seq<Reg>, pflg: bool): (r: seq<Reg>)
    requires AllValid(regs)
    ensures |r| == |regs| && forall j :: 0 <= j < |r| ==> r[j].startBit == regs[j].startBit && r[j].endBit == regs[j].endBit
    ensures AllValid(r) && forall j, i :: 0 <= j < |r| && regs[j].Width() <= i < 32 ==> !r[j].value[i]
  {
    if regs == [] then []
    else
      var before, r := regs[..|regs| - 1], regs[|regs| - 1];
      ReadBack(device, log, before, pflg)
      + [Reg(ReadWord(device, Transfers(log, DataEdges(before, pflg)), r.value, r.Width(), !pflg), r.startBit, r.endBit)]
  }

  // ----- what it does to the chip -----

  /** One transfer is one rising edge, with TCK left low. */
  function Clock(core: Hardware.Core, h: Hardware.Hw, e: Edge): Hardware.Hw {
    Hardware.React(core, h.(tck := false), Ports.Drive(Ports.Pins(true, e.tms, e.tdi))).(tck := false)
  }

  function Clocks(core: Hardware.Core, h: Hardware.Hw, edges: seq<Edge>): Hardware.Hw {
    if edges == [] then h else Clock(core, Clocks(core, h, edges[..|edges| - 1]), edges[|edges| - 1])
  }

  lemma TransferClocks(core: Hardware.Core, h: Hardware.Hw, log: Log, e: Edge)
    ensures Run(core, h, Transfer(log, e)) == Clock(core, Run(core, h, log), e)
  {
    var low, high := Jtag(true, false, e.tms, e.tdi), Jtag(true, true, e.tms, e.tdi);
    assert Run(core, h, Written(log, low)) == Run(core, h, log).(tck := false);
    assert Run(core, h, Raised(log, e)) == React(core, Run(core, h, Written(log, low)), high);
    assert Run(core, h, Transfer(log, e)) == React(core, Run(core, h, Raised(log, e)), low);
  }

  lemma {:induction false} TransfersClock(core: Hardware.Core, h: Hardware.Hw, log: Log, edges: seq<Edge>)
    ensures Run(core, h, Transfers(log, edges)) == Clocks(core, Run(core, h, log), edges)
  {
    hide Transfer, Clock;
    if edges != [] {
      TransfersClock(core, h, log, edges[..|edges| - 1]);
      TransferClocks(core, h, Transfers(log, edges[..|edges| - 1]), edges[|edges| - 1]);
    }
  }

  lemma {:induction false} ClocksJoin(core: Hardware.Core, h: Hardware.Hw, a: seq<Edge>, b: seq<Edge>)
    ensures Clocks(core, h, a + b) == Clocks(core, Clocks(core, h, a), b)
  {
    if b == [] {
      assert a + b == a;
    } else {
      assert (a + b)[..|a + b| - 1] == a + b[..|b| - 1];
      ClocksJoin(core, h, a, b[..|b| - 1]);
    }
  }

  lemma ResetReachesIdle(core: Hardware.Core, h: Hardware.Hw, log: Log)
    ensures Run(core, h, ResetLog(log)).tap == Tap.RunTestIdle
  {
    hide Transfer;
    var w := Written(Written(log, Jtag(true, false, false, false)), Jtag(false, false, false, false));
    assert Run(core, h, w).tap == Tap.TestLogicReset && !Run(core, h, w).tck;
    var v := Written(w, Jtag(false, true, false, false));
    assert Run(core, h, v).tap == Tap.TestLogicReset && Run(core, h, v).tck;
    var u := Written(Written(v, Jtag(true, true, false, false)), Jtag(true, false, false, false));
    assert Run(core, h, u).tap == Tap.TestLogicReset;
    TransferClocks(core, h, u, Edge(false, false));
  }

  /** Bits clocked in Shift-IR go through the instruction register. */
  lemma {:induction false} ShiftsIR(core: Hardware.Core, h: Hardware.Hw, value: Word, n: nat)
    requires h.tap == Tap.ShiftIR && n <= 32
    ensures Clocks(core, h, BitEdges(value, n, false)) == h.(ir := Hardware.Through(h.ir, value[..n]), tck := if n == 0 then h.tck else false)
  {
    if n == 0 {
      assert Hardware.Through(h.ir, value[..0]) == h.ir;
    } else {
      ShiftsIR(core, h, value, n - 1);
      assert BitEdges(value, n, false)[..n - 1] == BitEdges(value, n - 1, false);
      PushThrough(h.ir, value[..n - 1], value[n - 1]);
      assert value[..n - 1] + [value[n - 1]] == value[..n];
    }
  }

  lemma PushThrough(reg: seq<bool>, bits: seq<bool>, b: bool)
    ensures Hardware.Push(Hardware.Through(reg, bits), b) == Hardware.Through(reg, bits + [b])
  {
    assert (reg + (bits + [b])) == (reg + bits) + [b];
  }

  lemma ThroughTwice(reg: seq<bool>, a: seq<bool>, b: seq<bool>)
    ensures Hardware.Through(Hardware.Through(reg, a), b) == Hardware.Through(reg, a + b)
  {
    assert reg + (a + b) == (reg + a) + b;
  }

  /** Bits clocked in Shift-DR go through the data register, and the controller stays unless closing. */
  lemma {:induction false} ShiftsDR(core: Hardware.Core, h: Hardware.Hw, value: Word, n: nat, closing: bool)
    requires h.tap == Tap.ShiftDR && !h.tck && n <= 32 && (closing ==> n > 0)
    ensures Clocks(core, h, BitEdges(value, n, closing))
            == h.(tap := if closing then Tap.Exit1DR else Tap.ShiftDR, dr := Hardware.Through(h.dr, value[..n]), tck := false)
  {
    if n == 0 {
      assert Hardware.Through(h.dr, value[..0]) == h.dr;
    } else {
      assert value[..n - 1] + [value[n - 1]] == value[..n];
      PushThrough(h.dr, value[..n - 1], value[n - 1]);
      ShiftsDR(core, h, value, n - 1, false);
      assert BitEdges(value, n, closing)[..n - 1] == BitEdges(value, n - 1, false);
    }
  }

  /** All registers of a command with parity go through the data register in order. */
  lemma {:induction false} DataShifts(core: Hardware.Core, h: Hardware.Hw, regs: seq<Reg>)
    requires h.tap == Tap.ShiftDR && AllValid(regs) && !h.tck
    ensures Clocks(core, h, DataEdges(regs, true)) == h.(dr := Hardware.Through(h.dr, DataBits(regs)))
  {
    if regs == [] {
      assert Hardware.Through(h.dr, []) == h.dr;
    } else {
      var before, r := regs[..|regs| - 1], regs[|regs| - 1];
      DataShifts(core, h, before);
      ClocksJoin(core, h, DataEdges(before, true), BitEdges(r.value, r.Width(), false));
      ShiftsDR(core, Clocks(core, h, DataEdges(before, true)), r.value, r.Width(), false);
      ThroughTwice(h.dr, DataBits(before), r.value[..r.Width()]);
    }
  }

  lemma WalkIR(core: Hardware.Core, h: Hardware.Hw)
    requires h.tap == Tap.RunTestIdle
    ensures Clocks(core, h, TO_SHIFT_IR) == Hardware.Hw(Tap.ShiftIR, false, h.dr, core.ir(h.captures), h.captures + 1)
  {
    var r := FourEdges(core, h, Edge(true, false), Edge(true, false), Edge(false, false), Edge(false, false));
  }

  lemma WalkDR(core: Hardware.Core, h: Hardware.Hw)
    requires h.tap == Tap.Exit1IR
    ensures Clocks(core, h, TO_SHIFT_DR) == Hardware.Hw(Tap.ShiftDR, false, core.dr(h.captures), h.ir, h.captures + 1)
  {
    var r := FourEdges(core, h, Edge(true, false), Edge(true, false), Edge(false, false), Edge(false, false));
  }

  /** From Run-Test/Idle to Shift-DR by way of the instruction register. */
  lemma HeadGoes(core: Hardware.Core, h: Hardware.Hw, cmd: Word)
    requires h.tap == Tap.RunTestIdle
    ensures var r := Clocks(core, h, Head(cmd));
            && r == Hardware.Hw(Tap.ShiftDR, false, core.dr(h.captures + 1),
                                Hardware.Through(core.ir(h.captures), cmd[..CMD_BITS] + [Odd(cmd[..CMD_BITS])]), h.captures + 2)
  {
    hide BitEdges, Hardware.Through, Odd, Clocks;
    var odd := Odd(cmd[..CMD_BITS]);
    var a, b, c := TO_SHIFT_IR, BitEdges(cmd, CMD_BITS, false), [Edge(true, odd)];
    ClocksJoin(core, h, a, b);
    ClocksJoin(core, h, a + b, c);
    ClocksJoin(core, h, a + b + c, TO_SHIFT_DR);
    WalkIR(core, h);
    ShiftsIR(core, Clocks(core, h, a), cmd, CMD_BITS);
    OneEdge(core, Clocks(core, h, a + b), Edge(true, odd));
    PushThrough(core.ir(h.captures), cmd[..CMD_BITS], odd);
    WalkDR(core, Clocks(core, h, a + b + c));
  }

  lemma OneEdge(core: Hardware.Core, h: Hardware.Hw, e: Edge)
    ensures Clocks(core, h, [e]) == Clock(core, h, e)
  {
    assert [e][..0] == [];
  }

  lemma TwoEdges(core: Hardware.Core, h: Hardware.Hw, a: Edge, b: Edge)
    ensures Clocks(core, h, [a, b]) == Clock(core, Clock(core, h, a), b)
  {
    OneEdge(core, h, a);
    assert [a, b][..1] == [a];
  }

  lemma FourEdges(core: Hardware.Core, h: Hardware.Hw, a: Edge, b: Edge, c: Edge, d: Edge) returns (r: Hardware.Hw)
    ensures r == Clocks(core, h, [a, b, c, d]) == Clock(core, Clock(core, Clock(core, Clock(core, h, a), b), c), d)
  {
    TwoEdges(core, h, a, b);
    TwoEdges(core, Clocks(core, h, [a, b]), c, d);
    ClocksJoin(core, h, [a, b], [c, d]);
    assert [a, b] + [c, d] == [a, b, c, d];
    r := Clocks(core, h, [a, b, c, d]);
  }

  /** What a command does, with parity or with a single register that has bits, from Run-Test/Idle or with the reset:
      it ends in Run-Test/Idle, having taken the instruction register through the command and a bit making
      its ones even, and the data register through all fields and, with parity, such a bit; registers of
      just that length hold just those bits. */
  lemma CommandLaw(core: Hardware.Core, h0: Hardware.Hw, log: Log, cmd: Word, regs: seq<Reg>, pflg: bool, rflg: bool)
    requires AllValid(regs) && (pflg || |NonEmpty(regs)| == 1)
    requires rflg || Run(core, h0, log).tap == Tap.RunTestIdle
    ensures var h := Run(core, h0, if rflg then ResetLog(log) else log);
            var r := Run(core, h0, CommandLog(log, cmd, regs, pflg, rflg));
            var bits := DataBits(regs) + if pflg then [Odd(DataBits(regs))] else [];
            && r.tap == Tap.RunTestIdle && r.captures == h.captures + 2
            && r.ir == Hardware.Through(core.ir(h.captures), cmd[..CMD_BITS] + [Odd(cmd[..CMD_BITS])])
            && r.dr == Hardware.Through(core.dr(h.captures + 1), bits)
            && (|core.ir(h.captures)| == CMD_BITS + 1 ==> r.ir == cmd[..CMD_BITS] + [Odd(cmd[..CMD_BITS])])
            && (|core.dr(h.captures + 1)| == |bits| ==> r.dr == bits)
            && !Odd(cmd[..CMD_BITS] + [Odd(cmd[..CMD_BITS])]) && (pflg ==> !Odd(bits))
  {
    hide Head, Tail, DataEdges, DataBits, NonEmpty, Hardware.Through, BitEdges, Odd, ResetLog, Transfers, Clocks;
    var start := if rflg then ResetLog(log) else log;
    if rflg {
      ResetReachesIdle(core, h0, log);
    }
    var h := Run(core, h0, start);
    TransfersClock(core, h0, start, Head(cmd));
    HeadGoes(core, h, cmd);
    var h1 := Clocks(core, h, Head(cmd));
    TransfersClock(core, h0, Transfers(start, Head(cmd)), DataEdges(regs, pflg));
    DataGoes(core, h1, regs, pflg);
    TransfersClock(core, h0, Transfers(Transfers(start, Head(cmd)), DataEdges(regs, pflg)), Tail(regs, pflg));
    EvenOnes(cmd[..CMD_BITS]);
    EvenOnes(DataBits(regs));
    if |core.ir(h.captures)| == CMD_BITS + 1 {
      Hardware.ThroughFull(core.ir(h.captures), cmd[..CMD_BITS] + [Odd(cmd[..CMD_BITS])]);
    }
    var bits := DataBits(regs) + if pflg then [Odd(DataBits(regs))] else [];
    if |core.dr(h.captures + 1)| == |bits| {
      Hardware.ThroughFull(core.dr(h.captures + 1), bits);
    }
  }

  lemma EvenOnes(bits: seq<bool>)
    ensures !Odd(bits + [Odd(bits)])
  {
    assert (bits + [Odd(bits)])[..|bits|] == bits;
  }

  lemma DataGoes(core: Hardware.Core, h: Hardware.Hw, regs: seq<Reg>, pflg: bool)
    requires AllValid(regs) && (pflg || |NonEmpty(regs)| == 1) && h.tap == Tap.ShiftDR && !h.tck
    ensures var bits := DataBits(regs) + if pflg then [Odd(DataBits(regs))] else [];
            Clocks(core, Clocks(core, h, DataEdges(regs, pflg)), Tail(regs, pflg))
            == h.(tap := Tap.RunTestIdle, dr := Hardware.Through(h.dr, bits), tck := false)
  {
    hide BitEdges, Hardware.Through, Odd, Clocks, DataEdges, DataBits, NonEmpty;
    if pflg {
      DataShifts(core, h, regs);
      var h1 := Clocks(core, h, DataEdges(regs, true));
      var last := Edge(true, Odd(DataBits(regs)));
      OneEdge(core, h1, last);
      PushThrough(h.dr, DataBits(regs), last.tdi);
      ClocksJoin(core, h1, [last], TO_IDLE);
      TwoEdges(core, Clock(core, h1, last), Edge(true, false), Edge(false, false));
    } else {
      var r := NonEmpty(regs)[0];
      OneRegister(r);
      assert NonEmpty(regs) == [r];
      EmptySendNothing(regs, false);
      ShiftsDR(core, h, r.value, r.Width(), true);
      var h1 := Clocks(core, h, DataEdges(regs, false));
      assert [] + TO_IDLE == TO_IDLE;
      TwoEdges(core, h1, Edge(true, false), Edge(false, false));
    }
  }

  lemma OneRegister(r: Reg)
    requires r.Valid()
    ensures DataEdges([r], false) == BitEdges(r.value, r.Width(), true) && DataBits([r]) + [] == r.value[..r.Width()]
  {
    assert [r][..0] == [];
  }

  /** Without parity the condition is needed: no register at all leaves the controller in Pause-DR, and
      with two or more the second starts outside Shift-DR, so its first bit is never shifted in. */
  lemma OnlyOneWithoutParity(core: Hardware.Core, h: Hardware.Hw, regs: seq<Reg>)
    requires AllValid(regs) && h.tap == Tap.ShiftDR && !h.tck
    ensures var fields := NonEmpty(regs);
            && DataEdges(regs, false) == DataEdges(fields, false)
            && (|fields| == 0 ==> Clocks(core, Clocks(core, h, DataEdges(regs, false)), Tail(regs, false)).tap == Tap.PauseDR)
            && (|fields| >= 2 ==>
                  var at := Clocks(core, h, DataEdges(fields[..1], false));
                  && at.tap == Tap.Exit1DR
                  && Clock(core, at, BitEdges(fields[1].value, fields[1].Width(), true)[0]).dr == at.dr)
  {
    hide BitEdges, NonEmpty;
    EmptySendNothing(regs, false);
    var fields := NonEmpty(regs);
    if |fields| == 0 {
      assert [] + TO_IDLE == TO_IDLE;
      TwoEdges(core, h, Edge(true, false), Edge(false, false));
    } else {
      var r := fields[0];
      assert fields[..1] == [r];
      OneRegister(r);
      ShiftsDR(core, h, r.value, r.Width(), true);
    }
  }

  /** Without parity: from Shift-DR all bits of all registers go through the data register, nothing else
      changes, and the controller ends in Run-Test/Idle; for every chip in any state. */
  ghost predicate Works(regs: seq<Reg>)
    requires AllValid(regs)
  {
    forall core: Hardware.Core, h: Hardware.Hw :: h.tap == Tap.ShiftDR && !h.tck ==>
      Clocks(core, Clocks(core, h, DataEdges(regs, false)), Tail(regs, false))
      == h.(tap := Tap.RunTestIdle, dr := Hardware.Through(h.dr, DataBits(regs)), tck := false)
  }

  /** The bits clocked in while in Shift-DR. */
  function Taken(core: Hardware.Core, h: Hardware.Hw, edges: seq<Edge>): (r: seq<bool>)
    ensures |r| <= |edges|
  {
    if edges == [] then []
    else
      var before, e := edges[..|edges| - 1], edges[|edges| - 1];
      Taken(core, h, before) + if Clocks(core, h, before).tap.ShiftDR? then [e.tdi] else []
  }

  /** Unless something was captured, they are what went through the data register. */
  lemma {:induction false} TakenGoThrough(core: Hardware.Core, h: Hardware.Hw, edges: seq<Edge>)
    ensures var r := Clocks(core, h, edges);
            r.captures >= h.captures
            && (r.captures == h.captures ==> r.dr == Hardware.Through(h.dr, Taken(core, h, edges)))
  {
    hide Hardware.Through;
    if edges == [] {
      NothingThrough(h.dr);
    } else {
      var before, e := edges[..|edges| - 1], edges[|edges| - 1];
      TakenGoThrough(core, h, before);
      PushThrough(h.dr, Taken(core, h, before), e.tdi);
      assert Taken(core, h, before) + [] == Taken(core, h, before);
    }
  }

  lemma NothingThrough(reg: seq<bool>)
    ensures Hardware.Through(reg, []) == reg
  {
  }

  lemma {:induction false} TakenJoin(core: Hardware.Core, h: Hardware.Hw, a: seq<Edge>, b: seq<Edge>)
    ensures Taken(core, h, a + b) == Taken(core, h, a) + Taken(core, Clocks(core, h, a), b)
  {
    if b == [] {
      assert a + b == a;
    } else {
      var c := b[..|b| - 1];
      assert (a + b)[..|a + b| - 1] == a + c;
      TakenJoin(core, h, a, c);
      ClocksJoin(core, h, a, c);
    }
  }

  lemma {:induction false} EdgePerBit(regs: seq<Reg>)
    requires AllValid(regs)
    ensures |DataEdges(regs, false)| == |DataBits(regs)|
  {
    if regs != [] {
      EdgePerBit(regs[..|regs| - 1]);
    }
  }

  /** What the first register sends comes first. */
  lemma {:induction false} EdgesStart(regs: seq<Reg>, k: nat)
    requires AllValid(regs) && k <= |regs|
    ensures DataEdges(regs[..k], false) <= DataEdges(regs, false)
  {
    if k == |regs| {
      assert regs[..k] == regs;
    } else {
      assert regs[..|regs| - 1][..k] == regs[..k];
      EdgesStart(regs[..|regs| - 1], k);
    }
  }

  /** The second register's first bit is not taken: TMS was up on the last of the first. */
  lemma OneIsLost(core: Hardware.Core, h: Hardware.Hw, fields: seq<Reg>)
    requires AllValid(fields) && (forall j :: 0 <= j < |fields| ==> fields[j].Width() > 0) && |fields| >= 2
    requires h.tap == Tap.ShiftDR && !h.tck
    ensures |Taken(core, h, DataEdges(fields, false))| < |DataBits(fields)|
  {
    hide BitEdges, Clocks, Taken, DataEdges, DataBits;
    var one, edges := DataEdges(fields[..1], false), DataEdges(fields, false);
    var r := fields[0];
    assert fields[..1] == [r];
    OneRegister(r);
    ShiftsDR(core, h, r.value, r.Width(), true);
    EdgePerBit(fields);
    EdgesStart(fields, 1);
    SecondStarts(fields);
    var first, rest := edges[|one|], edges[|one| + 1..];
    assert edges == one + ([first] + rest);
    TakenJoin(core, h, one, [first] + rest);
    TakenJoin(core, Clocks(core, h, one), [first], rest);
    NotTaken(core, Clocks(core, h, one), first);
  }

  lemma SecondStarts(fields: seq<Reg>)
    requires AllValid(fields) && |fields| >= 2 && fields[1].Width() > 0
    ensures |DataEdges(fields[..1], false)| < |DataEdges(fields, false)|
  {
    EdgesStart(fields, 2);
    assert fields[..2][..1] == fields[..1];
  }

  lemma NotTaken(core: Hardware.Core, h: Hardware.Hw, e: Edge)
    requires h.tap != Tap.ShiftDR
    ensures Taken(core, h, [e]) == []
  {
    assert [e][..0] == [];
  }

  /** TMS is up on the last edge, so the way to Run-Test/Idle takes no bit. */
  lemma TailTakesNone(core: Hardware.Core, h: Hardware.Hw, fields: seq<Reg>)
    requires AllValid(fields) && fields != [] && fields[|fields| - 1].Width() > 0
    ensures Taken(core, Clocks(core, h, DataEdges(fields, false)), TO_IDLE) == []
  {
    hide Taken, Clock;
    var edges, r := DataEdges(fields, false), fields[|fields| - 1];
    assert edges[|edges| - 1] == BitEdges(r.value, r.Width(), true)[r.Width() - 1];
    var before := Clocks(core, h, edges[..|edges| - 1]);
    UpLeaves(core, before, edges[|edges| - 1]);
    var g := Clocks(core, h, edges);
    UpLeaves(core, g, TO_IDLE[0]);
    assert TO_IDLE == [TO_IDLE[0]] + [TO_IDLE[1]];
    TakenJoin(core, g, [TO_IDLE[0]], [TO_IDLE[1]]);
    OneEdge(core, g, TO_IDLE[0]);
    NotTaken(core, g, TO_IDLE[0]);
    NotTaken(core, Clocks(core, g, [TO_IDLE[0]]), TO_IDLE[1]);
  }

  lemma UpLeaves(core: Hardware.Core, h: Hardware.Hw, e: Edge)
    requires e.tms
    ensures Clock(core, h, e).tap != Tap.ShiftDR
  {
  }

  /** A register one bit longer than the data, with only its last bit set: as that bit has come out at the
      end only if all bits were taken, two fields do not work. */
  lemma TwoDoNotWork(regs: seq<Reg>)
    requires AllValid(regs) && |NonEmpty(regs)| >= 2
    ensures !Works(regs)
  {
    hide BitEdges, Clocks, Taken, DataEdges, DataBits, NonEmpty, Hardware.Through;
    var fields := NonEmpty(regs);
    EmptySendNothing(regs, false);
    var edges, n := DataEdges(regs, false), |DataBits(regs)|;
    var core := Hardware.Core(_ => [], _ => []);
    var h := Hardware.Hw(Tap.ShiftDR, false, seq(n + 1, i => i == n), [], 0);
    var r := Clocks(core, Clocks(core, h, edges), TO_IDLE);
    assert Tail(regs, false) == TO_IDLE;
    OneIsLost(core, h, fields);
    TailTakesNone(core, h, fields);
    TakenJoin(core, h, edges, TO_IDLE);
    ClocksJoin(core, h, edges, TO_IDLE);
    TakenGoThrough(core, h, edges + TO_IDLE);
    var taken := Taken(core, h, edges + TO_IDLE);
    LastComesOut(h.dr, taken, n);
    LastComesOut(h.dr, DataBits(regs), n);
  }

  lemma LastComesOut(reg: seq<bool>, bits: seq<bool>, n: nat)
    requires |bits| <= n && |reg| == n + 1 && forall i :: 0 <= i <= n ==> reg[i] == (i == n)
    ensures Hardware.Through(reg, bits) != [] && Hardware.Through(reg, bits)[0] == (|bits| == n)
  {
  }

  lemma NoneDoesNotWork(regs: seq<Reg>)
    requires AllValid(regs) && NonEmpty(regs) == []
    ensures !Works(regs)
  {
    hide NonEmpty, Clocks, DataEdges;
    var core := Hardware.Core(_ => [], _ => []);
    var h := Hardware.Hw(Tap.ShiftDR, false, [], [], 0);
    OnlyOneWithoutParity(core, h, regs);
  }

  /** So without parity a command works if and only if exactly one of its registers has bits. */
  lemma WorksIffOneField(regs: seq<Reg>)
    requires AllValid(regs)
    ensures Works(regs) <==> |NonEmpty(regs)| == 1
  {
    hide NonEmpty, Clocks, DataEdges, Tail, DataBits;
    if |NonEmpty(regs)| == 1 {
      forall core: Hardware.Core, h: Hardware.Hw | h.tap == Tap.ShiftDR && !h.tck
        ensures Clocks(core, Clocks(core, h, DataEdges(regs, false)), Tail(regs, false))
                == h.(tap := Tap.RunTestIdle, dr := Hardware.Through(h.dr, DataBits(regs)), tck := false)
      {
        DataGoes(core, h, regs, false);
        assert DataBits(regs) + [] == DataBits(regs);
      }
    } else if |NonEmpty(regs)| == 0 {
      NoneDoesNotWork(regs);
    } else {
      TwoDoNotWork(regs);
    }
  }

  /** The chip's TDO follows IEEE 1149.1: it changes when TCK falls, so at the top of a pulse it still is
      the bit that was next to TDO before the edge. */
  ghost predicate Conforms(device: Log -> bool, core: Hardware.Core, h0: Hardware.Hw) {
    forall log: Log, e: Edge :: var h := Run(core, h0, log);
      h.tap.ShiftDR? && h.dr != [] ==> device(Raised(log, e)) == h.dr[0]
  }

  /** The bits read with one register are the next ones of the old contents, then the bits sent. */
  lemma WordIsContents(device: Log -> bool, core: Hardware.Core, h0: Hardware.Hw, log: Log, value: Word, n: nat, closing: bool)
    requires Conforms(device, core, h0) && n <= 32
    requires n > 0 ==> var h := Run(core, h0, log); h.tap == Tap.ShiftDR && !h.tck && h.dr != []
    ensures ReadWord(device, log, value, n, closing)[..n] == (Run(core, h0, log).dr + value[..n])[..n]
  {
    hide Raised, Hardware.Run, React, Transfer, Clock;
    var h, edges := Run(core, h0, log), BitEdges(value, n, closing);
    forall i | 0 <= i < n
      ensures ReadWord(device, log, value, n, closing)[i] == (h.dr + value[..n])[i]
    {
      assert edges[..i] == BitEdges(value, i, false);
      TransfersClock(core, h0, log, edges[..i]);
      ShiftsDR(core, h, value, i, false);
      assert Hardware.Through(h.dr, value[..i])[0] == (h.dr + value[..n])[i];
    }
  }

  /** The bits read with all registers are the old contents of the data register, then the bits sent. */
  lemma {:induction false} ReadBackIsContents(device: Log -> bool, core: Hardware.Core, h0: Hardware.Hw, log: Log, regs: seq<Reg>, pflg: bool)
    requires Conforms(device, core, h0) && AllValid(regs) && (pflg || |NonEmpty(regs)| <= 1)
    requires var h := Run(core, h0, log); h.tap == Tap.ShiftDR && !h.tck && h.dr != []
    ensures var got, h := ReadBack(device, log, regs, pflg), Run(core, h0, log);
            DataBits(got) == (h.dr + DataBits(regs))[..|DataBits(regs)|]
  {
    hide Conforms, Run, Transfers, DataEdges, ReadWord, Hardware.Through;
    if regs != [] {
      var before, r, h := regs[..|regs| - 1], regs[|regs| - 1], Run(core, h0, log);
      ReadBackIsContents(device, core, h0, log, before, pflg);
      var got := ReadBack(device, log, before, pflg);
      var there := Transfers(log, DataEdges(before, pflg));
      var word := Reg(ReadWord(device, there, r.value, r.Width(), !pflg), r.startBit, r.endBit);
      FieldIsContents(device, core, h0, log, before, r, pflg);
      DataBitsNext(got, word);
      Contents(h.dr, DataBits(before), r.value[..r.Width()]);
    } else {
      assert DataBits([]) == (Run(core, h0, log).dr + [])[..0];
    }
  }

  lemma DataBitsNext(before: seq<Reg>, r: Reg)
    requires AllValid(before) && r.Valid()
    ensures AllValid(before + [r]) && DataBits(before + [r]) == DataBits(before) + r.value[..r.Width()]
  {
    assert (before + [r])[..|before|] == before;
  }

  lemma FieldIsContents(device: Log -> bool, core: Hardware.Core, h0: Hardware.Hw, log: Log, before: seq<Reg>, r: Reg, pflg: bool)
    requires Conforms(device, core, h0) && AllValid(before) && r.Valid()
    requires r.Width() > 0 ==> pflg || NonEmpty(before) == []
    requires var h := Run(core, h0, log); h.tap == Tap.ShiftDR && !h.tck && h.dr != []
    ensures var there := Transfers(log, DataEdges(before, pflg));
            ReadWord(device, there, r.value, r.Width(), !pflg)[..r.Width()]
            == (Hardware.Through(Run(core, h0, log).dr, DataBits(before)) + r.value[..r.Width()])[..r.Width()]
  {
    hide Conforms, Run, Transfers, DataEdges, DataBits, ReadWord, NonEmpty;
    if r.Width() > 0 {
      BeforeField(core, h0, log, before, pflg);
      WordIsContents(device, core, h0, Transfers(log, DataEdges(before, pflg)), r.value, r.Width(), !pflg);
    }
  }

  /** Where the bits of one register start. */
  lemma BeforeField(core: Hardware.Core, h0: Hardware.Hw, log: Log, before: seq<Reg>, pflg: bool)
    requires AllValid(before) && (pflg || NonEmpty(before) == [])
    requires var h := Run(core, h0, log); h.tap == Tap.ShiftDR && !h.tck
    ensures var h := Run(core, h0, log);
            Run(core, h0, Transfers(log, DataEdges(before, pflg))) == h.(dr := Hardware.Through(h.dr, DataBits(before)))
  {
    hide React, BitEdges, NonEmpty;
    var h := Run(core, h0, log);
    TransfersClock(core, h0, log, DataEdges(before, pflg));
    if pflg {
      DataShifts(core, h, before);
    } else {
      EmptySendNothing(before, false);
      assert Hardware.Through(h.dr, []) == h.dr;
    }
  }

  lemma Contents(reg: seq<bool>, a: seq<bool>, b: seq<bool>)
    ensures (reg + a)[..|a|] + (Hardware.Through(reg, a) + b)[..|b|] == (reg + (a + b))[..|a + b|]
  {
    assert reg + (a + b) == (reg + a) + b;
  }

  /** So a command reads back what the chip had captured, as far as that goes. */
  lemma ReadBackLaw(device: Log -> bool, core: Hardware.Core, h0: Hardware.Hw, log: Log, cmd: Word, regs: seq<Reg>, pflg: bool, rflg: bool)
    requires Conforms(device, core, h0) && AllValid(regs) && (pflg || |NonEmpty(regs)| <= 1)
    requires rflg || Run(core, h0, log).tap == Tap.RunTestIdle
    requires var h := Run(core, h0, if rflg then ResetLog(log) else log); core.dr(h.captures + 1) != []
    ensures var start := if rflg then ResetLog(log) else log;
            var held := core.dr(Run(core, h0, start).captures + 1);
            var got := ReadBack(device, Transfers(start, Head(cmd)), regs, pflg);
            var n := |DataBits(regs)|;
            && (forall j, i :: 0 <= j < |got| && regs[j].Width() <= i < 32 ==> !got[j].value[i])
            && DataBits(got) == (held + DataBits(regs))[..n] && (n <= |held| ==> DataBits(got) == held[..n])
  {
    hide Conforms, React, Head, Transfers, ReadBack, DataBits, NonEmpty, ResetLog;
    var start := if rflg then ResetLog(log) else log;
    if rflg {
      ResetReachesIdle(core, h0, log);
    }
    var h := Run(core, h0, start);
    TransfersClock(core, h0, start, Head(cmd));
    HeadGoes(core, h, cmd);
    ReadBackIsContents(device, core, h0, Transfers(start, Head(cmd)), regs, pflg);
    var held := core.dr(h.captures + 1);
    if |DataBits(regs)| <= |held| {
      assert (held + DataBits(regs))[..|DataBits(regs)|] == held[..|DataBits(regs)|];
    }
  }
}

/** The routines themselves. */
module HptdcOps {
  import opened HptdcSpec
  import opened Packing

  class Chip {
    var log: Log
    const device: Log -> bool  // TDO after a log: any chip

    constructor (device: Log -> bool)
      ensures log == Nothing && this.device == device
    {
      log := Nothing;
      this.device := device;
    }

    method Write(trst: bool, tck: bool, tms: bool, tdi: bool)
      modifies this
      ensures log == Written(old(log), Jtag(trst, tck, tms, tdi))
    {
      log := Written(log, Jtag(trst, tck, tms, tdi));
    }

    method BitTransfer(tdi: bool, tms: bool) returns (tdo: bool)
      modifies this
      ensures log == Transfer(old(log), Edge(tms, tdi)) && tdo == device(Raised(old(log), Edge(tms, tdi)))
    {
      Write(true, false, tms, tdi);
      Write(true, true, tms, tdi);
      tdo := device(log);
      Write(true, false, tms, tdi);
    }

    method StateReset()
      modifies this
      ensures log == ResetLog(old(log))
    {
      Write(true, false, false, false);
      Write(false, false, false, false);
      Write(false, true, false, false);
      Write(true, true, false, false);
      Write(true, false, false, false);
      var tdo := BitTransfer(false, false);
    }

    /** The walk of four edges: two with TMS up, two with it down. */
    method WalkToShift()
      modifies this
      ensures log == Transfers(old(log), TO_SHIFT_DR)
    {
      ghost var was := log;
      var tdo := BitTransfer(false, true);
      tdo := BitTransfer(false, true);
      tdo := BitTransfer(false, false);
      tdo := BitTransfer(false, false);
      FourTransfers(was, Edge(true, false), Edge(true, false), Edge(false, false), Edge(false, false));
    }

    /** The low n bits of a value, and how many of them are ones. */
    method SendBits(value: Word, n: nat, closing: bool) returns (rval: Word, ones: nat)
      requires n <= 32
      modifies this
      ensures log == Transfers(old(log), BitEdges(value, n, closing))
      ensures rval == ReadWord(device, old(log), value, n, closing)
      ensures ones % 2 == 1 <==> Odd(value[..n])
    {
      hide Transfer, Raised, Odd, Transfers;
      ghost var edges := BitEdges(value, n, closing);
      rval, ones := ZERO, 0;
      OddNone(value[..0]);
      NoTransfers(log);
      for i := 0 to n
        invariant log == Transfers(old(log), edges[..i])
        invariant ones % 2 == 1 <==> Odd(value[..i])
        invariant forall k :: 0 <= k < 32 ==>
                    rval[k] == (k < i && device(Raised(Transfers(old(log), edges[..k]), edges[k])))
      {
        TransfersNext(old(log), edges, i);
        OddNext(value, i);
        if value[i] {
          ones := ones + 1;
        }
        var tdo := BitTransfer(value[i], closing && i == n - 1);
        rval := rval[i := tdo];
      }
      assert edges[..n] == edges;
    }

    /** `HptdcCommand`; nothing happens when the module does not answer. */
    method Command(present: bool, cmd: Word, wreg: array<Reg>, rreg: array?<Reg>, size: nat, pflg: bool, rflg: bool)
      returns (ok: bool)
      requires size <= wreg.Length && AllValid(wreg[..size]) && (rreg != null ==> size <= rreg.Length)
      modifies this, if rreg == null then {} else {rreg}
      ensures ok == present && (!ok ==> log == old(log) && (rreg != null ==> rreg[..] == old(rreg[..])))
      ensures ok ==> log == CommandLog(old(log), cmd, old(wreg[..size]), pflg, rflg)
      ensures ok && rreg != null ==>
                var start := if rflg then ResetLog(old(log)) else old(log);
                rreg[..] == ReadBack(device, Transfers(start, Head(cmd)), old(wreg[..size]), pflg) + old(rreg[size..])
    {
      hide ResetLog, Transfers, Head, Tail, DataEdges, DataBits, ReadBack, Odd;
      var ones: nat;
      ok := present;
      if !present {
        return;
      }
      if rflg {
        StateReset();
      }
      SendCommand(cmd);
      ones := SendRegisters(wreg, rreg, size, pflg);
      Finish(pflg, ones % 2 == 1, old(wreg[..size]));
    }

    /** The register data, and how many of its bits are ones. */
    method SendRegisters(wreg: array<Reg>, rreg: array?<Reg>, size: nat, pflg: bool) returns (ones: nat)
      requires size <= wreg.Length && AllValid(wreg[..size]) && (rreg != null ==> size <= rreg.Length)
      modifies this, if rreg == null then {} else {rreg}
      ensures log == Transfers(old(log), DataEdges(old(wreg[..size]), pflg))
      ensures ones % 2 == 1 <==> Odd(DataBits(old(wreg[..size])))
      ensures rreg != null ==> rreg[..size] == ReadBack(device, old(log), old(wreg[..size]), pflg)
      ensures rreg != null ==> rreg[size..] == old(rreg[size..])
    {
      hide Transfers, ReadWord, ReadBack, DataEdges, DataBits, Odd;
      ghost var there, regs := log, wreg[..size];
      ghost var rest := if rreg == null then [] else rreg[size..];
      ones := 0;
      NothingSent(device, there, pflg);
      assert regs[..0] == [];
      for j := 0 to size
        invariant Sent(wreg, rreg, regs, rest, there, pflg, j, ones)
      {
        ones := SendRegister(wreg, rreg, j, pflg, ones, regs, rest, there);
      }
      assert regs[..size] == regs;
    }

    /** The first j registers are out, and what came back is stored, possibly over them. */
    ghost predicate Sent(wreg: array<Reg>, rreg: array?<Reg>, regs: seq<Reg>, rest: seq<Reg>, there: Log, pflg: bool, j: nat, ones: nat)
      reads this, wreg, rreg
    {
      && j <= |regs| <= wreg.Length && AllValid(regs) && AllValid(regs[..j])
      && (forall i :: j <= i < |regs| ==> wreg[i] == regs[i])
      && log == Transfers(there, DataEdges(regs[..j], pflg))
      && (ones % 2 == 1 <==> Odd(DataBits(regs[..j])))
      && (rreg != null ==>
            |regs| <= rreg.Length && rreg[..j] == ReadBack(device, there, regs[..j], pflg) && rreg[|regs|..] == rest)
    }

    method SendRegister(wreg: array<Reg>, rreg: array?<Reg>, j: nat, pflg: bool, ones: nat,
        ghost regs: seq<Reg>, ghost rest: seq<Reg>, ghost there: Log)
      returns (total: nat)
      requires j < |regs| && Sent(wreg, rreg, regs, rest, there, pflg, j, ones)
      modifies this, if rreg == null then {} else {rreg}
      ensures Sent(wreg, rreg, regs, rest, there, pflg, j + 1, total)
    {
      hide Transfers, ReadWord, ReadBack, DataEdges, DataBits, BitEdges, Odd;
      ghost var before := regs[..j];
      assert regs[..j + 1] == before + [regs[j]];
      var n := wreg[j].Width();
      var rval, more := SendBits(wreg[j].value, n, !pflg);
      RegisterNext(device, there, before, regs[j], pflg);
      SumParity(ones, more);
      total := ones + more;
      if rreg != null {
        ghost var got := rreg[..j];
        rreg[j] := Reg(rval, wreg[j].startBit, wreg[j].endBit);
        assert rreg[..j + 1] == got + [rreg[j]];
        assert rreg[|regs|..] == rest;
      }
    }

    /** The command bits, their parity bit, and on to Shift-DR. */
    method SendCommand(cmd: Word)
      modifies this
      ensures log == Transfers(old(log), Head(cmd))
    {
      hide Transfer, BitEdges, Odd, ReadWord;
      ghost var was := log;
      WalkToShift();
      var cval, ones := SendBits(cmd, CMD_BITS, false);
      var tdo := BitTransfer(ones % 2 == 1, true);
      ghost var mid := [Edge(true, Odd(cmd[..CMD_BITS]))];
      OneTransfer(Transfers(Transfers(was, TO_SHIFT_IR), BitEdges(cmd, CMD_BITS, false)), mid[0]);
      WalkToShift();
      TransfersJoin(was, TO_SHIFT_IR, BitEdges(cmd, CMD_BITS, false));
      TransfersJoin(was, TO_SHIFT_IR + BitEdges(cmd, CMD_BITS, false), mid);
      TransfersJoin(was, TO_SHIFT_IR + BitEdges(cmd, CMD_BITS, false) + mid, TO_SHIFT_DR);
    }

    method Finish(pflg: bool, odd: bool, ghost regs: seq<Reg>)
      requires AllValid(regs) && odd == Odd(DataBits(regs))
      modifies this
      ensures log == Transfers(old(log), Tail(regs, pflg))
    {
      ghost var was := log;
      var tdo;
      if pflg {
        tdo := BitTransfer(odd, true);
        OneTransfer(was, Edge(true, odd));
        TransfersJoin(was, [Edge(true, odd)], TO_IDLE);
      }
      assert [] + TO_IDLE == TO_IDLE;
      ghost var now := log;
      tdo := BitTransfer(false, true);
      tdo := BitTransfer(false, false);
      OneTransfer(now, Edge(true, false));
      assert TO_IDLE[..1] == [Edge(true, false)];
    }
  }

  /** One more register: what is sent, its parity, and what comes back. */
  lemma RegisterNext(device: Log -> bool, there: Log, before: seq<Reg>, r: Reg, pflg: bool)
    requires AllValid(before) && r.Valid()
    ensures AllValid(before + [r])
    ensures Transfers(there, DataEdges(before + [r], pflg))
            == Transfers(Transfers(there, DataEdges(before, pflg)), BitEdges(r.value, r.Width(), !pflg))
    ensures Odd(DataBits(before + [r])) == (Odd(DataBits(before)) != Odd(r.value[..r.Width()]))
    ensures ReadBack(device, there, before + [r], pflg)
            == ReadBack(device, there, before, pflg)
               + [Reg(ReadWord(device, Transfers(there, DataEdges(before, pflg)), r.value, r.Width(), !pflg), r.startBit, r.endBit)]
  {
    hide Transfers, ReadWord, BitEdges, Odd;
    var all := before + [r];
    assert all[..|all| - 1] == before && all[|all| - 1] == r;
    OddJoin(DataBits(before), r.value[..r.Width()]);
    TransfersJoin(there, DataEdges(before, pflg), BitEdges(r.value, r.Width(), !pflg));
  }

  lemma NothingSent(device: Log -> bool, there: Log, pflg: bool)
    ensures Transfers(there, DataEdges([], pflg)) == there && !Odd(DataBits([])) && ReadBack(device, there, [], pflg) == []
  {
  }

  lemma NoTransfers(log: Log)
    ensures Transfers(log, []) == log
  {
  }

  lemma TransfersNext(log: Log, edges: seq<Edge>, i: nat)
    requires i < |edges|
    ensures Transfers(log, edges[..i + 1]) == Transfer(Transfers(log, edges[..i]), edges[i])
  {
    assert edges[..i + 1][..i] == edges[..i];
  }

  lemma OneTransfer(log: Log, e: Edge)
    ensures Transfers(log, [e]) == Transfer(log, e)
  {
    assert [e][..0] == [];
  }

  lemma FourTransfers(log: Log, a: Edge, b: Edge, c: Edge, d: Edge)
    ensures Transfers(log, [a, b, c, d]) == Transfer(Transfer(Transfer(Transfer(log, a), b), c), d)
  {
    hide Transfer;
    OneTransfer(log, a);
    assert [a, b][..1] == [a] && [a, b, c][..2] == [a, b] && [a, b, c, d][..3] == [a, b, c];
    assert Transfers(log, [a, b]) == Transfer(Transfer(log, a), b);
    assert Transfers(log, [a, b, c]) == Transfer(Transfers(log, [a, b]), c);
  }

  lemma OddNone(bits: seq<bool>)
    requires bits == []
    ensures !Odd(bits)
  {
  }

  lemma OddNext(value: Word, i: nat)
    requires i < 32
    ensures Odd(value[..i + 1]) == (Odd(value[..i]) != value[i])
  {
    assert value[..i + 1][..i] == value[..i];
  }

  lemma SumParity(a: nat, b: nat)
    ensures ((a + b) % 2 == 1) == ((a % 2 == 1) != (b % 2 == 1))
  {
  }

  lemma {:induction false} OddJoin(a: seq<bool>, b: seq<bool>)
    ensures Odd(a + b) == (Odd(a) != Odd(b))
  {
    if b == [] {
      assert a + b == a;
    } else {
      assert (a + b)[..|a + b| - 1] == a + b[..|b| - 1];
      OddJoin(a, b[..|b| - 1]);
    }
  }
}
