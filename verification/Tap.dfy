/** The TAP controller of clause 6.1 of IEEE Std 1149.1-2001, the player's codes for its
    states (jtag/micro.c), and the navigation table of `xsvfGotoTapState`. */
module Tap {

  datatype State =
    | TestLogicReset | RunTestIdle
    | SelectDR | CaptureDR | ShiftDR | Exit1DR | PauseDR | Exit2DR | UpdateDR
    | SelectIR | CaptureIR | ShiftIR | Exit1IR | PauseIR | Exit2IR | UpdateIR

  /** One rising edge of TCK. */
  function Next(s: State, tms: bool): State {
    match s
    case TestLogicReset => if tms then TestLogicReset else RunTestIdle
    case RunTestIdle => if tms then SelectDR else RunTestIdle
    case SelectDR => if tms then SelectIR else CaptureDR
    case CaptureDR => if tms then Exit1DR else ShiftDR
    case ShiftDR => if tms then Exit1DR else ShiftDR
    case Exit1DR => if tms then UpdateDR else PauseDR
    case PauseDR => if tms then Exit2DR else PauseDR
    case Exit2DR => if tms then UpdateDR else ShiftDR
    case UpdateDR => if tms then SelectDR else RunTestIdle
    case SelectIR => if tms then TestLogicReset else CaptureIR
    case CaptureIR => if tms then Exit1IR else ShiftIR
    case ShiftIR => if tms then Exit1IR else ShiftIR
    case Exit1IR => if tms then UpdateIR else PauseIR
    case PauseIR => if tms then Exit2IR else PauseIR
    case Exit2IR => if tms then UpdateIR else ShiftIR
    case UpdateIR => if tms then SelectDR else RunTestIdle
  }

  // The player's state bytes.
  const RESET: nat := 0x00
  const RUNTEST: nat := 0x01
  const SELECTDR: nat := 0x02
  const CAPTUREDR: nat := 0x03
  const SHIFTDR: nat := 0x04
  const EXIT1DR: nat := 0x05
  const PAUSEDR: nat := 0x06
  const EXIT2DR: nat := 0x07
  const UPDATEDR: nat := 0x08
  const SELECTIR: nat := 0x09  // all IR states begin here
  const CAPTUREIR: nat := 0x0A
  const SHIFTIR: nat := 0x0B
  const EXIT1IR: nat := 0x0C
  const PAUSEIR: nat := 0x0D
  const EXIT2IR: nat := 0x0E
  const UPDATEIR: nat := 0x0F

  function Code(s: State): nat {
    match s
    case TestLogicReset => RESET
    case RunTestIdle => RUNTEST
    case SelectDR => SELECTDR
    case CaptureDR => CAPTUREDR
    case ShiftDR => SHIFTDR
    case Exit1DR => EXIT1DR
    case PauseDR => PAUSEDR
    case Exit2DR => EXIT2DR
    case UpdateDR => UPDATEDR
    case SelectIR => SELECTIR
    case CaptureIR => CAPTUREIR
    case ShiftIR => SHIFTIR
    case Exit1IR => EXIT1IR
    case PauseIR => PAUSEIR
    case Exit2IR => EXIT2IR
    case UpdateIR => UPDATEIR
  }

  /** The switch inside the navigation loop: the TMS level to apply in state `cur` on the way
      to `target`, and the state the player then believes in. */
  function Branch(cur: nat, target: nat): (r: (bool, nat))
    requires cur <= UPDATEIR
  {
    if cur == RESET then (false, RUNTEST)
    else if cur == RUNTEST then (true, SELECTDR)
    else if cur == SELECTDR then if target >= SELECTIR then (true, SELECTIR) else (false, CAPTUREDR)
    else if cur == CAPTUREDR then if target == SHIFTDR then (false, SHIFTDR) else (true, EXIT1DR)
    else if cur == SHIFTDR then (true, EXIT1DR)
    else if cur == EXIT1DR then if target == PAUSEDR then (false, PAUSEDR) else (true, UPDATEDR)
    else if cur == PAUSEDR then (true, EXIT2DR)
    else if cur == EXIT2DR then if target == SHIFTDR then (false, SHIFTDR) else (true, UPDATEDR)
    else if cur == UPDATEDR then if target == RUNTEST then (false, RUNTEST) else (true, SELECTDR)
    else if cur == SELECTIR then (false, CAPTUREIR)
    else if cur == CAPTUREIR then if target == SHIFTIR then (false, SHIFTIR) else (true, EXIT1IR)
    else if cur == SHIFTIR then (true, EXIT1IR)
    else if cur == EXIT1IR then if target == PAUSEIR then (false, PAUSEIR) else (true, UPDATEIR)
    else if cur == PAUSEIR then (true, EXIT2IR)
    else if cur == EXIT2IR then if target == SHIFTIR then (false, SHIFTIR) else (true, UPDATEIR)
    else if target == RUNTEST then (false, RUNTEST) else (true, SELECTDR)
  }

  /** Every step of the table is a step of the controller: the belief moves as the hardware does. */
  lemma BranchIsNext(s: State, target: nat)
    ensures Branch(Code(s), target).1 == Code(Next(s, Branch(Code(s), target).0))
  {
  }

  /** The start/target pairs that `xsvfGotoTapState` refuses. */
  predicate Illegal(cur: nat, target: nat) {
    target != cur && ((target == EXIT2DR && cur != PAUSEDR) || (target == EXIT2IR && cur != PAUSEIR))
  }

  /** Edges needed inside one column (DR states, or IR states less 7), `n` to `m`, where m may be
      Run-Test/Idle; 9 stands for "not without passing Select-DR again". */
  function InColumn(n: nat, m: nat): nat {
    if n == m then 0
    else if n == SELECTDR then
      (if m == CAPTUREDR then 1 else if m == SHIFTDR || m == EXIT1DR then 2
       else if m == PAUSEDR || m == UPDATEDR then 3 else if m == RUNTEST then 4 else 9)
    else if n == CAPTUREDR then
      (if m == SHIFTDR || m == EXIT1DR then 1 else if m == PAUSEDR || m == UPDATEDR then 2 else if m == RUNTEST then 3 else 9)
    else if n == SHIFTDR then
      (if m == EXIT1DR then 1 else if m == PAUSEDR || m == UPDATEDR then 2 else if m == RUNTEST then 3 else 9)
    else if n == EXIT1DR then
      (if m == PAUSEDR || m == UPDATEDR then 1 else if m == RUNTEST then 2 else 9)
    else if n == PAUSEDR then
      (if m == EXIT2DR then 1 else if m == SHIFTDR || m == UPDATEDR then 2 else if m == RUNTEST then 3 else 9)
    else if n == EXIT2DR then
      (if m == SHIFTDR || m == UPDATEDR then 1 else if m == RUNTEST then 2 else 9)
    else if n == UPDATEDR && m == RUNTEST then 1
    else 9
  }

  /** Edges from a state to Select-DR when the target lies beyond it. */
  function ToSelectDR(cur: nat): nat {
    if cur == RESET then 2
    else if cur == RUNTEST then 1
    else if cur == SELECTIR then 4
    else
      var n := if cur >= SELECTIR then cur - 7 else cur;
      if n == SELECTDR then 0
      else if n == UPDATEDR then 1
      else if n == EXIT1DR || n == EXIT2DR then 2
      else 3
  }

  /** The ranking function of the navigation loop. */
  function Rank(cur: nat, target: nat): nat {
    if cur == target then 0
    else if cur == RESET && target == RUNTEST then 1
    else
      var curIR, targetIR := cur >= SELECTIR, target >= SELECTIR;
      var n := if curIR then cur - 7 else cur;
      var m := if targetIR then target - 7 else target;
      if (curIR == targetIR || target == RUNTEST) && n >= SELECTDR && InColumn(n, m) < 9 then InColumn(n, m)
      else ToSelectDR(cur) + (if targetIR then 1 else 0) + InColumn(SELECTDR, m)
  }

  /** A target a caller may name other than RESET, from the given state. */
  predicate Reachable(cur: nat, target: nat) {
    cur <= UPDATEIR && RUNTEST <= target <= UPDATEIR && !Illegal(cur, target)
  }

  /** The loop terminates: each edge of a legal navigation lowers the rank by exactly one, and the
      rank is zero only on arrival and never above seven. */
  lemma RankDrops(cur: nat, target: nat)
    requires Reachable(cur, target) && cur != target
    ensures Reachable(Branch(cur, target).1, target)
    ensures Rank(Branch(cur, target).1, target) == Rank(cur, target) - 1
    ensures 1 <= Rank(cur, target) <= 7
  {
    if cur <= CAPTUREDR {
      RankDropsToCapture(cur, target);
    } else if cur <= UPDATEDR {
      RankDropsDR(cur, target);
    } else {
      RankDropsIR(cur, target);
    }
  }

  lemma RankDropsToCapture(cur: nat, target: nat)
    requires Reachable(cur, target) && cur != target && cur <= CAPTUREDR
    ensures Rank(Branch(cur, target).1, target) == Rank(cur, target) - 1 <= 6
  {
  }

  lemma RankDropsDR(cur: nat, target: nat)
    requires Reachable(cur, target) && cur != target && SHIFTDR <= cur <= UPDATEDR
    ensures Rank(Branch(cur, target).1, target) == Rank(cur, target) - 1 <= 6
  {
  }

  lemma RankDropsIR(cur: nat, target: nat)
    requires Reachable(cur, target) && cur != target && SELECTIR <= cur
    ensures Rank(Branch(cur, target).1, target) == Rank(cur, target) - 1 <= 6
  {
  }

  /** The state believed after `n` passes of the loop when arrival is not tested. */
  function Walked(cur: nat, target: nat, n: nat): (r: nat)
    requires cur <= UPDATEIR
    ensures r <= UPDATEIR
    decreases n
  {
    if n == 0 then cur else Walked(Branch(cur, target).1, target, n - 1)
  }

  /** A state byte above 0x0F is never reached, so the loop does not end: the 4-bit range of the
      operand is exactly what termination needs. */
  lemma WalkArrivesIff(cur: nat, target: nat)
    requires cur <= UPDATEIR && target != RESET && !Illegal(cur, target)
    ensures (exists n: nat :: Walked(cur, target, n) == target) <==> target <= UPDATEIR
  {
    if target <= UPDATEIR {
      WalkArrives(cur, target);
    }
  }

  lemma {:induction false} WalkArrives(cur: nat, target: nat)
    requires Reachable(cur, target)
    ensures Walked(cur, target, Rank(cur, target)) == target
    decreases Rank(cur, target)
  {
    if cur != target {
      RankDrops(cur, target);
      WalkArrives(Branch(cur, target).1, target);
    }
  }

  /** TMS sampled high on five rising edges resets the controller from any state. */
  lemma FiveOnesReset(s: State)
    ensures Next(Next(Next(Next(Next(s, true), true), true), true), true) == TestLogicReset
  {
  }
}
