/** `xsvfGotoTapState` (jtag/micro.c:492-694): the player's belief about the TAP state, and the
    proof that the pins it drives keep the hardware in the believed state. */
module Lines {
  import opened Ports
  import opened Hardware
  import Tap

  /** What the player has driven, and the TAP state it believes the hardware to be in. */
  datatype Line = Line(wire: Wire, tap: nat)

  predicate Shifting(tap: nat) {
    tap == Tap.SHIFTDR || tap == Tap.SHIFTIR
  }

  /** The belief is the truth for a hardware that started as h0; and in a shift state TMS is low,
      which is what a shift that never drives TMS low relies on. */
  ghost predicate InStep(core: Core, h0: Hw, l: Line) {
    var h := Run(core, h0, l.wire.log);
    && Tap.Code(h.tap) == l.tap
    && h.tck == l.wire.pins.tck
    && (Shifting(l.tap) ==> !l.wire.pins.tms)
  }

  function Step(l: Line, tms: bool, tap: nat): Line {
    Line(Pulse(Set(l.wire, TMS, tms)), tap)
  }

  /** The navigation loop. */
  function Walk(l: Line, target: nat): (r: Line)
    requires Tap.Reachable(l.tap, target)
    ensures r.tap == target
    decreases Tap.Rank(l.tap, target)
  {
    if l.tap == target then l
    else
      Tap.RankDrops(l.tap, target);
      var (tms, next) := Tap.Branch(l.tap, target);
      Walk(Step(l, tms, next), target)
  }

  function Pulses(w: Wire, n: nat): (r: Wire)
    ensures Length(r.log) == Length(w.log) + 2 * n
  {
    if n == 0 then w else Pulse(Pulses(w, n - 1))
  }

  /** The reset sequence: TMS high and six rising edges. */
  function ResetLine(l: Line): Line {
    Line(Pulses(Pulse(Set(l.wire, TMS, true)), 5), Tap.RESET)
  }

  /** A pause state asked for while in it is left and entered again, as SVF requires. */
  predicate LeavesPause(tap: nat, target: nat) {
    tap == target && (target == Tap.PAUSEDR || target == Tap.PAUSEIR)
  }

  function Goto(l: Line, target: nat): (r: Line)
    requires l.tap <= Tap.UPDATEIR && target <= Tap.UPDATEIR
    ensures r.tap <= Tap.UPDATEIR
  {
    if target == Tap.RESET then ResetLine(l)
    else if Tap.Illegal(l.tap, target) then l
    else if LeavesPause(l.tap, target) then Walk(Step(l, true, target + 1), target)
    else Walk(l, target)
  }

  lemma StepInStep(core: Core, h0: Hw, l: Line, tms: bool)
    requires InStep(core, h0, l)
    ensures var h := Run(core, h0, l.wire.log);
            InStep(core, h0, Step(l, tms, Tap.Code(Tap.Next(h.tap, tms)))) || (tms && Shifting(Tap.Code(Tap.Next(h.tap, tms))))
  {
    var w := Set(l.wire, TMS, tms);
    QuietWrite(core, h0, l.wire, TMS, tms);
    PulseClocksOnce(core, h0, w);
  }

  lemma {:induction false} WalkInStep(core: Core, h0: Hw, l: Line, target: nat)
    requires InStep(core, h0, l) && Tap.Reachable(l.tap, target)
    ensures InStep(core, h0, Walk(l, target))
    decreases Tap.Rank(l.tap, target)
  {
    if l.tap != target {
      Tap.RankDrops(l.tap, target);
      var (tms, next) := Tap.Branch(l.tap, target);
      Tap.BranchIsNext(Run(core, h0, l.wire.log).tap, target);
      StepInStep(core, h0, l, tms);
      WalkInStep(core, h0, Step(l, tms, next), target);
    }
  }

  /** TMS high for n more edges. */
  lemma {:induction false} PulsesRun(core: Core, h0: Hw, w: Wire, n: nat)
    requires w.pins.tck && Run(core, h0, w.log).tck
    ensures Pulses(w, n).pins == w.pins
    ensures Run(core, h0, Pulses(w, n).log).tck
    ensures Run(core, h0, Pulses(w, n).log).tap == NextTimes(Run(core, h0, w.log).tap, w.pins.tms, n)
  {
    if n > 0 {
      var v := Pulses(w, n - 1);
      PulsesRun(core, h0, w, n - 1);
      PulseClocksOnce(core, h0, v);
      assert Pulse(v).pins == v.pins.(tck := true) == v.pins;
    }
  }

  function NextTimes(s: Tap.State, tms: bool, n: nat): Tap.State {
    if n == 0 then s else Tap.Next(NextTimes(s, tms, n - 1), tms)
  }

  /** The reset sequence synchronises: whatever the hardware's TAP state and clock level were, and
      whatever the player believed, the belief is true afterwards. */
  lemma ResetSynchronises(core: Core, h0: Hw, l: Line)
    ensures InStep(core, h0, ResetLine(l))
  {
    var w := Set(l.wire, TMS, true);
    PulseClocksOnce(core, h0, w);
    PulsesRun(core, h0, Pulse(w), 5);
    var s := Run(core, h0, Pulse(w).log).tap;
    Tap.FiveOnesReset(s);
    assert NextTimes(s, true, 2) == Tap.Next(Tap.Next(s, true), true);
    assert NextTimes(s, true, 3) == Tap.Next(NextTimes(s, true, 2), true);
    assert NextTimes(s, true, 4) == Tap.Next(NextTimes(s, true, 3), true);
  }

  /** Navigation keeps the belief true, and arrives unless the table refuses the target. */
  lemma GotoInStep(core: Core, h0: Hw, l: Line, target: nat)
    requires InStep(core, h0, l) && target <= Tap.UPDATEIR
    ensures InStep(core, h0, Goto(l, target))
    ensures target == Tap.RESET || !Tap.Illegal(l.tap, target) ==> Goto(l, target).tap == target
    ensures target != Tap.RESET && Tap.Illegal(l.tap, target) ==> Goto(l, target) == l
  {
    if target == Tap.RESET {
      ResetSynchronises(core, h0, l);
    } else if !Tap.Illegal(l.tap, target) {
      if LeavesPause(l.tap, target) {
        StepInStep(core, h0, l, true);
        WalkInStep(core, h0, Step(l, true, target + 1), target);
      } else {
        WalkInStep(core, h0, l, target);
      }
    }
  }

  /** Edges a navigation takes: at most seven, six for a reset; three writes each but for the
      reset, which sets TMS once. */
  function Edges(tap: nat, target: nat): nat
    requires tap <= Tap.UPDATEIR && target <= Tap.UPDATEIR
  {
    if target == Tap.RESET then 6
    else if Tap.Illegal(tap, target) then 0
    else if LeavesPause(tap, target) then 1 + Tap.Rank(tap + 1, target)
    else Tap.Rank(tap, target)
  }

  lemma GotoEdges(l: Line, target: nat)
    requires l.tap <= Tap.UPDATEIR && target <= Tap.UPDATEIR
    ensures Edges(l.tap, target) <= 7
    ensures Length(Goto(l, target).wire.log) == Length(l.wire.log) + if target == Tap.RESET then 13 else 3 * Edges(l.tap, target)
  {
    hide Tap.Branch, Walk;
    if target != Tap.RESET && !Tap.Illegal(l.tap, target) {
      if LeavesPause(l.tap, target) {
        WalkEdges(Step(l, true, target + 1), target);
      } else {
        WalkEdges(l, target);
        if l.tap != target {
          Tap.RankDrops(l.tap, target);
        }
      }
    }
  }

  lemma {:induction false} WalkEdges(l: Line, target: nat)
    requires Tap.Reachable(l.tap, target)
    ensures Length(Walk(l, target).wire.log) == Length(l.wire.log) + 3 * Tap.Rank(l.tap, target)
    decreases Tap.Rank(l.tap, target)
  {
    if l.tap != target {
      Tap.RankDrops(l.tap, target);
      var (tms, next) := Tap.Branch(l.tap, target);
      WalkEdges(Step(l, tms, next), target);
    }
  }
}

/** Result codes of jtag/micro.h:27-33. */
module Errors {
  datatype Error = NoError | TdoMismatch | MaxRetries | IllegalCmd | IllegalState | DataOverflow
}

module Navigate {
  import opened Ports
  import opened Lines
  import opened Errors
  import Tap

  /** `tap` is the byte behind the source's `pucTapState`; `r` is what it holds afterwards. */
  method GotoTapState(port: Port, tap: nat, target: nat) returns (r: nat, error: Error)
    requires port.Valid() && tap <= Tap.UPDATEIR && target <= Tap.UPDATEIR
    modifies port
    ensures port.Valid() && Line(port.wire, r) == Goto(Line(old(port.wire), tap), target)
    ensures error == if target != Tap.RESET && Tap.Illegal(tap, target) then IllegalState else NoError
    ensures error.NoError? ==> r == target
    ensures r <= Tap.UPDATEIR
  {
    error := NoError;
    r := tap;
    if target == Tap.RESET {
      port.TmsTransition(true);
      ghost var w := port.wire;
      for i := 0 to 5
        invariant port.Valid() && port.wire == Pulses(w, i)
      {
        port.SetPort(TCK, false);
        port.SetPort(TCK, true);
      }
      r := Tap.RESET;
    } else if target != tap && ((target == Tap.EXIT2DR && tap != Tap.PAUSEDR) || (target == Tap.EXIT2IR && tap != Tap.PAUSEIR)) {
      error := IllegalState;
    } else {
      if target == tap {
        if target == Tap.PAUSEDR {
          port.TmsTransition(true);
          r := Tap.EXIT2DR;
        } else if target == Tap.PAUSEIR {
          port.TmsTransition(true);
          r := Tap.EXIT2IR;
        }
      }
      ghost var start := Line(port.wire, r);
      while target != r
        invariant port.Valid() && Tap.Reachable(r, target)
        invariant Walk(Line(port.wire, r), target) == Walk(start, target)
        decreases Tap.Rank(r, target)
      {
        Tap.RankDrops(r, target);
        var (tms, next) := Tap.Branch(r, target);
        port.TmsTransition(tms);
        r := next;
      }
    }
  }
}
