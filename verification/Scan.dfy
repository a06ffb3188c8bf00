/** What a shift does to conforming hardware: the selected scan register takes in the TDI bits and
    gives out what it held. */
module ScanLaws {
  import opened Bytes
  import opened Ports
  import opened Hardware
  import opened Lines
  import opened Shifting
  import Tap

  /** The register in the column a shift state belongs to. */
  function Selected(h: Hw): seq<bool> {
    if h.tap.ShiftIR? || h.tap.Exit1IR? then h.ir else h.dr
  }

  function Unselected(h: Hw): seq<bool> {
    if h.tap.ShiftIR? || h.tap.Exit1IR? then h.dr else h.ir
  }

  /** Hardware ready to shift: in a shift state with TMS low and the port's TCK level. */
  ghost predicate Ready(core: Core, h0: Hw, w: Wire) {
    var h := Run(core, h0, w.log);
    (h.tap.ShiftDR? || h.tap.ShiftIR?) && h.tck == w.pins.tck && !w.pins.tms
  }

  /** After one bit: the register took it; no capture; still ready unless TMS was raised. */
  ghost predicate Shifted(h: Hw, r: Hw, bits: seq<bool>, leave: bool) {
    && r.tap == Tap.Next(h.tap, leave) && r.captures == h.captures
    && Selected(r) == Through(Selected(h), bits) && Unselected(r) == Unselected(h)
  }

  lemma OneBit(core: Core, h0: Hw, w: Wire, bit: bool, leave: bool)
    requires Ready(core, h0, w)
    ensures var r := ShiftBit(w, bit, leave);
            && Shifted(Run(core, h0, w.log), Run(core, h0, r.log), [bit], leave)
            && Run(core, h0, r.log).tck && r.pins.tck && r.pins.tms == leave
    ensures var low := Run(core, h0, BitSetup(w, bit, leave).log);
            !low.tck && low == Run(core, h0, w.log).(tck := false)
  {
    var w1 := if leave then Set(w, TMS, true) else w;
    if leave {
      QuietWrite(core, h0, w, TMS, true);
    }
    QuietWrite(core, h0, w1, TDI, bit);
    PulseReacts(core, h0, Set(w1, TDI, bit));
  }

  /** A whole shift: `exit` leaves for the column's Exit1 state on the last edge. */
  lemma {:induction false} ShiftRuns(core: Core, h0: Hw, w: Wire, bits: seq<bool>, exit: bool)
    requires Ready(core, h0, w) && bits != []
    ensures var r := Shift(w, bits, exit);
            && Shifted(Run(core, h0, w.log), Run(core, h0, r.log), bits, exit)
            && Run(core, h0, r.log).tck && r.pins.tck && r.pins.tms == exit
    decreases |bits|
  {
    hide Run, Through, Selected, Unselected, ShiftBit, BitSetup;
    var n := |bits| - 1;
    var before := Shift(w, bits[..n], false);
    if n > 0 {
      ShiftRuns(core, h0, w, bits[..n], false);
      ThroughNext(Selected(Run(core, h0, w.log)), bits);
    } else {
      assert bits == [bits[n]];
    }
    OneBit(core, h0, before, bits[n], exit);
  }

  lemma ThroughNext(reg: seq<bool>, bits: seq<bool>)
    requires bits != []
    ensures Through(Through(reg, bits[..|bits| - 1]), [bits[|bits| - 1]]) == Through(reg, bits)
    ensures reg != [] ==> var next := Through(reg, bits[..|bits| - 1]);
                          next != [] && (reg + bits[..|bits| - 1])[..|bits| - 1] + [next[0]] == (reg + bits)[..|bits|]
  {
    assert (reg + bits[..|bits| - 1]) + [bits[|bits| - 1]] == reg + bits;
  }

  /** The device's TDO follows IEEE 1149.1: read with TCK low in a shift state, it is the
      register's bit next to TDO. */
  ghost predicate Conforms(device: History -> bv16, core: Core, h0: Hw) {
    forall log: History :: var h := Run(core, h0, log);
      !h.tck && (h.tap.ShiftDR? || h.tap.ShiftIR?) && Selected(h) != [] ==> Tdo(device, log) == Selected(h)[0]
  }

  lemma StillReady(core: Core, h0: Hw, w: Wire, bits: seq<bool>)
    requires Ready(core, h0, w)
    ensures Ready(core, h0, Shift(w, bits, false))
    ensures Selected(Run(core, h0, Shift(w, bits, false).log)) == Through(Selected(Run(core, h0, w.log)), bits)
  {
    hide Run;
    if bits == [] {
      assert Through(Selected(Run(core, h0, w.log)), []) == Selected(Run(core, h0, w.log));
    } else {
      ShiftRuns(core, h0, w, bits, false);
    }
  }

  /** The samples of a shift are the register's old contents followed by the bits shifted in. */
  lemma {:induction false} SamplesAreContents(device: History -> bv16, core: Core, h0: Hw, w: Wire, bits: seq<bool>, exit: bool)
    requires Conforms(device, core, h0) && Ready(core, h0, w)
    requires Selected(Run(core, h0, w.log)) != []
    ensures Samples(device, w, bits, exit) == (Selected(Run(core, h0, w.log)) + bits)[..|bits|]
    decreases |bits|
  {
    hide Run, Through, ShiftBit, BitSetup, Shift, Tdo;
    if bits != [] {
      var n := |bits| - 1;
      var reg := Selected(Run(core, h0, w.log));
      var before := Shift(w, bits[..n], false);
      SamplesAreContents(device, core, h0, w, bits[..n], false);
      StillReady(core, h0, w, bits[..n]);
      OneBit(core, h0, before, bits[n], exit);
      ThroughNext(reg, bits);
    }
  }

  /** The scan law: n bits through a register of n bits leave exactly the TDI value in it, and the
      captured value is exactly what it held, with the unused top bits zero. */
  lemma ScanExchanges(device: History -> bv16, core: Core, h0: Hw, w: Wire, v: seq<byte>, n: nat, exit: bool, was: seq<byte>)
    requires Conforms(device, core, h0) && Ready(core, h0, w)
    requires |Selected(Run(core, h0, w.log))| == n > 0 && n <= 8 * |v| < n + 8 && |v| <= |was|
    ensures Selected(Run(core, h0, Shift(w, Bits(v, n), exit).log)) == Bits(v, n)
    ensures var got := Captured(was, |v|, Samples(device, w, Bits(v, n), exit))[..|v|];
            && Bits(got, n) == Selected(Run(core, h0, w.log))
            && forall k :: n <= k < 8 * |v| ==> !BitOf(got, k)
  {
    hide Shift, Samples, Captured, BitOf;
    var bits, reg := Bits(v, n), Selected(Run(core, h0, w.log));
    ShiftRuns(core, h0, w, bits, exit);
    SamplesAreContents(device, core, h0, w, bits, exit);
    assert (reg + bits)[..n] == reg;
    var got := Captured(was, |v|, Samples(device, w, bits, exit))[..|v|];
    forall k: nat | k < 8 * |v|
      ensures BitOf(got, k) == (k < n && reg[k])
    {
      CapturedBits(was, |v|, reg, k);
    }
  }

  /** The player's belief across a shift: the tap byte moves on by one when the shift exits. */
  function ShiftLine(l: Line, bits: seq<bool>, exit: bool): Line {
    Line(Shift(l.wire, bits, exit), if exit then l.tap + 1 else l.tap)
  }

  lemma ShiftInStep(core: Core, h0: Hw, l: Line, bits: seq<bool>, exit: bool)
    requires InStep(core, h0, l) && Lines.Shifting(l.tap) && bits != []
    ensures InStep(core, h0, ShiftLine(l, bits, exit))
  {
    ShiftRuns(core, h0, l.wire, bits, exit);
  }
}
