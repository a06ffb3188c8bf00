/** The JTAG port of jtag/ports.c: one 16-bit word holding a true and a complement bit for each
    pin, written as a whole each time a pin is set; and the history of what the port drove. */
module Ports {

  datatype Pin = TCK | TMS | TDI

  datatype Pins = Pins(tck: bool, tms: bool, tdi: bool)

  /** What the device can see of the player: the pin levels after each write, and the waits. */
  datatype Act = Drive(pins: Pins) | Sleep(usec: nat)

  /** Everything the port did, oldest first. */
  datatype History = Start | Then(before: History, act: Act)

  function Length(h: History): nat {
    match h
    case Start => 0
    case Then(before, _) => Length(before) + 1
  }

  /** The history so far, with the levels now on the pins. */
  datatype Wire = Wire(log: History, pins: Pins)

  function With(p: Pins, pin: Pin, v: bool): Pins {
    match pin
    case TCK => p.(tck := v)
    case TMS => p.(tms := v)
    case TDI => p.(tdi := v)
  }

  function Set(w: Wire, pin: Pin, v: bool): (r: Wire)
    ensures Length(r.log) == Length(w.log) + 1
  {
    var p := With(w.pins, pin, v);
    Wire(Then(w.log, Drive(p)), p)
  }

  /** TCK low, then high: one rising edge with the other pins as they are. */
  function Pulse(w: Wire): Wire {
    Set(Set(w, TCK, false), TCK, true)
  }

  function Wait(w: Wire, usec: nat): Wire {
    var low := Set(w, TCK, false);
    low.(log := Then(low.log, Sleep(usec)))
  }

  // The port word (jtag/ports.c:14-24); a complement bit is four places above its pin.
  const JTAG_TDO: bv16 := 0x01
  const JTAG_TDI: bv16 := 0x02
  const JTAG_TDI_BAR: bv16 := 0x20
  const JTAG_TMS: bv16 := 0x04
  const JTAG_TMS_BAR: bv16 := 0x40
  const JTAG_TCK: bv16 := 0x08
  const JTAG_TCK_BAR: bv16 := 0x80

  function Swap(word: bv16): bv16 {
    ((word & 0xFF) << 8) | ((word >> 8) & 0xFF)
  }

  function PinsOf(word: bv16): Pins {
    Pins(word & JTAG_TCK != 0, word & JTAG_TMS != 0, word & JTAG_TDI != 0)
  }

  /** Every pin's complement bit is the opposite of its true bit, and no other bit is set. */
  predicate Complementary(word: bv16) {
    word <= 0xFF && (word & 0x0F) ^ (word >> 4) == 0x0F
  }

  class Port {
    var jtag: bv16     // the software copy of the word
    var register: bv16 // the word last stored in the device's register, byte-swapped
    var wire: Wire
    const device: History -> bv16  // what the register reads back after a history: any device

    ghost predicate Valid()
      reads this
    {
      Complementary(jtag) && PinsOf(jtag) == wire.pins
    }

    constructor (device: History -> bv16)
      ensures Valid() && wire == Wire(Start, Pins(true, true, true)) && this.device == device
    {
      jtag, register := 0x0F, 0;
      wire := Wire(Start, Pins(true, true, true));
      this.device := device;
    }

    method SetPort(pin: Pin, val: bool)
      requires Valid()
      modifies this
      ensures Valid() && wire == Set(old(wire), pin, val)
      ensures Complementary(Swap(register)) && PinsOf(Swap(register)) == wire.pins
    {
      if val {
        match pin
        case TMS => jtag := jtag | JTAG_TMS; jtag := jtag & !JTAG_TMS_BAR;
        case TDI => jtag := jtag | JTAG_TDI; jtag := jtag & !JTAG_TDI_BAR;
        case TCK => jtag := jtag | JTAG_TCK; jtag := jtag & !JTAG_TCK_BAR;
      } else {
        match pin
        case TMS => jtag := jtag | JTAG_TMS_BAR; jtag := jtag & !JTAG_TMS;
        case TDI => jtag := jtag | JTAG_TDI_BAR; jtag := jtag & !JTAG_TDI;
        case TCK => jtag := jtag | JTAG_TCK_BAR; jtag := jtag & !JTAG_TCK;
      }
      register := Swap(jtag);
      wire := Set(wire, pin, val);
    }

    method ReadTDOBit() returns (bit: bool)
      ensures bit == Tdo(device, wire.log) == (device(wire.log) & 0x0100 != 0)
    {
      TdoIsBitEight(device(wire.log));
      var rback := Swap(device(wire.log));
      bit := rback & JTAG_TDO != 0;
    }

    method WaitTime(usec: nat)
      requires Valid()
      modifies this
      ensures Valid() && wire == Wait(old(wire), usec)
    {
      SetPort(TCK, false);
      wire := wire.(log := Then(wire.log, Sleep(usec)));
    }

    method TmsTransition(tms: bool)
      requires Valid()
      modifies this
      ensures Valid() && wire == Pulse(Set(old(wire), TMS, tms))
    {
      SetPort(TMS, tms);
      SetPort(TCK, false);
      SetPort(TCK, true);
    }
  }

  function Tdo(device: History -> bv16, log: History): bool {
    Swap(device(log)) & JTAG_TDO != 0
  }

  /** The register's bytes are swapped on the way in as on the way out. */
  lemma TdoIsBitEight(raw: bv16)
    ensures Swap(raw) & JTAG_TDO != 0 <==> raw & 0x0100 != 0
    ensures Swap(Swap(raw)) == raw
  {
  }
}

/** The reference hardware: a conforming TAP controller with a data and an instruction scan
    register, clocked by whatever the port drove. */
module Hardware {
  import opened Ports
  import Tap

  datatype Hw = Hw(tap: Tap.State, tck: bool, dr: seq<bool>, ir: seq<bool>, captures: nat)

  /** What the k-th capture loads, if into the data or into the instruction register: any core logic. */
  datatype Core = Core(dr: nat -> seq<bool>, ir: nat -> seq<bool>)

  /** Shift one bit in at the far end; the bit next to TDO falls off. */
  function Push(reg: seq<bool>, tdi: bool): seq<bool> {
    (reg + [tdi])[1..]
  }

  /** Shifting the bits through a register of any length. */
  function Through(reg: seq<bool>, bits: seq<bool>): seq<bool> {
    (reg + bits)[|bits|..]
  }

  /** A register just as long as what is shifted ends up holding just that. */
  lemma ThroughFull(reg: seq<bool>, bits: seq<bool>)
    requires |reg| == |bits|
    ensures Through(reg, bits) == bits
  {
  }

  function React(core: Core, h: Hw, a: Act): Hw {
    match a
    case Sleep(_) => h
    case Drive(p) =>
      if !h.tck && p.tck then
        Hw(Tap.Next(h.tap, p.tms), true,
           if h.tap.ShiftDR? then Push(h.dr, p.tdi) else if h.tap.CaptureDR? then core.dr(h.captures) else h.dr,
           if h.tap.ShiftIR? then Push(h.ir, p.tdi) else if h.tap.CaptureIR? then core.ir(h.captures) else h.ir,
           if h.tap.CaptureDR? || h.tap.CaptureIR? then h.captures + 1 else h.captures)
      else h.(tck := p.tck)
  }

  function Run(core: Core, h: Hw, log: History): Hw {
    match log
    case Start => h
    case Then(before, a) => React(core, Run(core, h, before), a)
  }

  /** The instruction register, or the data register, has n bits. */
  ghost predicate HasLength(core: Core, h0: Hw, ir: bool, n: nat) {
    if ir then |h0.ir| == n && forall k: nat :: |core.ir(k)| == n
    else |h0.dr| == n && forall k: nat :: |core.dr(k)| == n
  }

  lemma {:induction false} LengthKept(core: Core, h0: Hw, log: History, ir: bool, n: nat)
    requires HasLength(core, h0, ir, n)
    ensures |if ir then Run(core, h0, log).ir else Run(core, h0, log).dr| == n
  {
    if log.Then? {
      LengthKept(core, h0, log.before, ir, n);
    }
  }

  /** One pulse of TCK is one rising edge for the hardware, whatever its TCK level was before. */
  lemma PulseReacts(core: Core, h: Hw, w: Wire)
    ensures var before := Run(core, h, w.log);
            Run(core, h, Pulse(w).log) == React(core, before.(tck := false), Drive(w.pins.(tck := true)))
  {
  }

  lemma PulseClocksOnce(core: Core, h: Hw, w: Wire)
    ensures var r := Run(core, h, Pulse(w).log);
            r.tck && r.tap == Tap.Next(Run(core, h, w.log).tap, w.pins.tms)
  {
    PulseReacts(core, h, w);
  }

  /** Moving TMS or TDI, or a wait, clocks nothing once the port has the hardware's TCK level. */
  lemma QuietWrite(core: Core, h: Hw, w: Wire, pin: Pin, v: bool)
    requires !pin.TCK? && Run(core, h, w.log).tck == w.pins.tck
    ensures Run(core, h, Set(w, pin, v).log) == Run(core, h, w.log)
  {
  }

  lemma QuietWait(core: Core, h: Hw, w: Wire, usec: nat)
    ensures Run(core, h, Wait(w, usec).log) == Run(core, h, w.log).(tck := false)
  {
  }
}
