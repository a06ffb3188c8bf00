/** When the player returns: the operands on which the source loops for ever, and the streams that reach
    one (jtag/micro.c). */
module EndlessLaws {
  import opened Bytes
  import opened Commands
  import opened Errors
  import opened LenVals
  import opened Lines
  import opened PlayerLaws
  import opened PlayerSpec
  import opened Ports
  import opened Retry
  import opened Source
  import Tap

  // ----- the loops -----

  /** The byte the text loop of XCOMMENT reads in a pass. */
  function Text(data: seq<byte>, pos: nat, pass: nat): byte {
    At(data, pos + pass)
  }

  /** That loop ends if and only if a zero byte is left in the stream: past its end every
      byte reads as 0xFF. */
  lemma CommentEndsIff(data: seq<byte>, pos: nat)
    requires pos <= |data|
    ensures (exists pass: nat :: Text(data, pos, pass) == 0) <==> ZeroFrom(data, pos) < |data|
    ensures ZeroFrom(data, pos) < |data| <==> exists k :: pos <= k < |data| && data[k] == 0
  {
    var z := ZeroFrom(data, pos);
    ZeroIsNext(data, pos);
    if z < |data| {
      assert Text(data, pos, z - pos) == 0;
    } else {
      forall pass: nat
        ensures Text(data, pos, pass) != 0
      {
        if pos + pass < |data| {
          assert data[pos + pass] != 0;
        }
      }
    }
  }

  lemma {:induction false} ZeroIsNext(data: seq<byte>, pos: nat)
    requires pos <= |data|
    ensures var z := ZeroFrom(data, pos);
            (forall k :: pos <= k < z ==> data[k] != 0) && (z < |data| ==> data[z] == 0)
    decreases |data| - pos
  {
    if pos < |data| && data[pos] != 0 {
      ZeroIsNext(data, pos + 1);
    }
  }

  /** The unsigned char that counts mask bytes, after so many passes of its loop. */
  function Counter(passes: nat): byte {
    if passes == 0 then 0 else ToByte(Counter(passes - 1) + 1)
  }

  lemma FitsByte(n: nat)
    requires n < 256
    ensures ToByte(n) == n
  {
  }

  lemma {:induction false} CounterIs(passes: nat)
    requires passes <= 255
    ensures Counter(passes) == passes
  {
    hide ToByte;
    FitsByte(passes);
    if passes > 0 {
      CounterIs(passes - 1);
    }
  }

  /** That loop ends if and only if the mask has at most 255 bytes, and then after one pass per byte. */
  lemma CounterEndsIff(len: nat)
    ensures (exists passes: nat :: Counter(passes) >= len) <==> len <= 255
    ensures len <= 255 ==> Counter(len) == len && forall passes: nat :: passes < len ==> Counter(passes) < len
  {
    hide Counter;
    if len <= 255 {
      CounterIs(len);
      forall passes: nat | passes < len
        ensures Counter(passes) < len
      {
        CounterIs(passes);
      }
      assert Counter(len) >= len;
    }
  }

  // ----- the operands -----

  /** The bit count an XSDRSIZE command names. */
  function SizeOperand(data: seq<byte>, pos: nat): nat {
    Value(Take(data, pos, 4))
  }

  /** The source never comes back from the command just fetched: a state byte above 0x0F, a comment that
      never closes, or a data mask of more than 255 bytes once the first word has been shifted. */
  predicate Loops(t: Snap, data: seq<byte>, device: History -> bv16)
    requires t.Valid(data) && t.error == NoError
  {
    var c := t.command;
    || (c == 18 && At(data, t.pos) > Tap.UPDATEIR)
    || (c == 23 && (At(data, t.pos) > Tap.UPDATEIR || At(data, After(data, t.pos, 1)) > Tap.UPDATEIR))
    || (c == 22 && forall k :: t.pos <= k < |data| ==> data[k] != 0)
    || (c == 11 && t.Fits() && t.dataMask.len > 255 && XSDR(t, data, device).error == NoError)
  }

  /** The command just fetched reads or writes outside its buffers, because the byte count was cut to a short:
      it reads a value of a negative length, or shifts more bytes than a buffer has. */
  predicate Overruns(t: Snap) {
    var c := t.command;
    ((c == 1 || c == 10) && t.bytes < 0) || ((c == 3 || c == 9 || 11 <= c <= 17) && !t.Fits())
  }

  /** A count is cut exactly if the size was more than 32767 bytes, and then there are more bytes to shift than
      a buffer has, wherever the shift starts in it. */
  lemma CutIsTooLong(s: Snap, data: seq<byte>)
    requires s.Valid(data) && s.error == NoError
    ensures !s.Fits() <==> AsNumBytes(s.bits) > MAX_SHORT
    ensures !s.Fits() <==> AsNumBytes(s.bits) > MAX_LEN + 1
  {
  }

  predicate SameSize(s: Snap, r: Snap) {
    r.bits == s.bits && r.bytes == s.bytes
  }

  // ----- one command -----

  /** Shifting halts the model only if the count was cut. */
  lemma ShiftsHaltIff(s: Snap, data: seq<byte>, device: History -> bv16, last: bool)
    requires s.Valid(data) && s.error == NoError
    ensures XSIR(s, data, device).halt == s.halt && XSIR2(s, data, device).halt == s.halt
    ensures var h := if s.Fits() then s.halt else Overrun;
            && XSDR(s, data, device).halt == h && XSDRTDO(s, data, device).halt == h
            && XSDRBCE(s, data, device, last).halt == h && XSDRTDOBCE(s, data, device, last).halt == h
  {
    hide Retry.Shift, Value, Load, Val.Valid, Job.Valid;
  }

  /** The loop of XSDRINC changes neither the halt mark nor the sizes. */
  lemma {:induction false} IncLoopKeeps(s: Snap, data: seq<byte>, device: History -> bv16, times: nat)
    requires s.Valid(data) && (s.error == NoError ==> s.Sized()) && PieceLen(s.dataMask.View()) <= MAX_LEN
    ensures IncLoop(s, data, device, times).halt == s.halt && SameSize(s, IncLoop(s, data, device, times))
    decreases times
  {
    hide PlayDR;
    if s.error == NoError && times != 0 {
      var t := NextPiece(s, data);
      PlayDRKeeps(t, data, device, true, true, t.endDR, t.runTest, t.maxRepeat);
      IncLoopKeeps(PlayDR(t, data, device, true, true, t.endDR, t.runTest, t.maxRepeat), data, device, times - 1);
    }
  }

  lemma WordsAfterKeep(s: Snap, data: seq<byte>, device: History -> bv16)
    requires s.Valid(data) && (s.error == NoError ==> s.Sized())
    ensures var r := WordsAfter(s, data, device);
            SameSize(s, r) && r.halt == if s.error == NoError && s.dataMask.len > 255 then EndlessCount else s.halt
  {
    hide IncLoop;
    if s.error == NoError && s.dataMask.len <= 255 {
      IncLoopKeeps(s.(pos := After(data, s.pos, 1)), data, device, At(data, s.pos));
    }
  }

  lemma XSDRINCHaltsIff(s: Snap, data: seq<byte>, device: History -> bv16)
    requires s.Valid(data) && s.error == NoError && s.halt == Live
    ensures XSDRINC(s, data, device).halt
            == if !s.Fits() then Overrun
               else if s.dataMask.len > 255 && XSDR(s, data, device).error == NoError then EndlessCount
               else Live
  {
    hide XSDR, WordsAfter, InStep;
    if s.Fits() {
      XSDRTracks(s, data, device);
      ShiftsHaltIff(s, data, device, false);
      WordsAfterKeep(XSDR(s, data, device), data, device);
    }
  }

  lemma OthersHaltIff(s: Snap, data: seq<byte>, ir: bool)
    requires s.Valid(data) && s.error == NoError && s.halt == Live
    ensures XRUNTEST(s, data).halt == Live && XREPEAT(s, data).halt == Live && XENDXR(s, data, ir).halt == Live
    ensures XSDRSIZE(s, data).halt == Live
    ensures XTDOMASK(s, data).halt == XSETSDRMASKS(s, data).halt == if s.bytes < 0 then Overrun else Live
    ensures XSTATE(s, data).halt == if At(data, s.pos) > Tap.UPDATEIR then EndlessWalk else Live
    ensures XWAIT(s, data).halt
            == if At(data, s.pos) > Tap.UPDATEIR || At(data, After(data, s.pos, 1)) > Tap.UPDATEIR then EndlessWalk else Live
    ensures XCOMMENT(s, data).halt == if forall k :: s.pos <= k < |data| ==> data[k] != 0 then EndlessComment else Live
  {
    hide Value, Take, Goto, WaitIn, WaitThere;
    CommentEndsIff(data, s.pos);
  }

  /** One command halts the model exactly on such an operand. */
  lemma PerformHaltsIff(s: Snap, data: seq<byte>, device: History -> bv16)
    requires s.Valid(data) && s.error == NoError && s.halt == Live
    ensures Perform(s, data, device).halt.Endless() <==> Loops(s, data, device)
    ensures Perform(s, data, device).halt == Overrun <==> Overruns(s)
  {
    hide XSIR, XSIR2, XSDR, XSDRTDO, XSDRBCE, XSDRTDOBCE, XSDRINC, XTDOMASK, XRUNTEST, XREPEAT, XSDRSIZE,
         XSETSDRMASKS, XENDXR, XCOMMENT, XSTATE, XWAIT, Snap.Valid, ZeroFrom;
    ShiftsHaltIff(s, data, device, s.command == 14 || s.command == 17);
    XSDRINCHaltsIff(s, data, device);
    OthersHaltIff(s, data, s.command == 19);
  }

  // ----- whole streams -----

  /** The k-th command is reached, and the source never comes back from it. */
  predicate LoopsAt(s: Snap, data: seq<byte>, device: History -> bv16, k: nat)
    requires s.Valid(data)
  {
    var t := Runs(s, data, device, k);
    t.Running() && Loops(Fetched(t, data), data, device)
  }

  /** The k-th command is reached, and leaves its buffers. */
  predicate OverrunsAt(s: Snap, data: seq<byte>, device: History -> bv16, k: nat)
    requires s.Valid(data)
  {
    var t := Runs(s, data, device, k);
    t.Running() && Overruns(Fetched(t, data))
  }

  lemma LastHaltsIff(s: Snap, data: seq<byte>, device: History -> bv16, n: nat)
    requires s.Valid(data) && n > 0
    ensures var t, r := Runs(s, data, device, n - 1), Runs(s, data, device, n);
            if t.Running() then
              (r.halt.Endless() <==> LoopsAt(s, data, device, n - 1)) && (r.halt == Overrun <==> OverrunsAt(s, data, device, n - 1))
            else r == t && !LoopsAt(s, data, device, n - 1) && !OverrunsAt(s, data, device, n - 1)
  {
    hide Perform, Loops, Overruns;
    var t := Runs(s, data, device, n - 1);
    if t.Running() {
      PerformHaltsIff(Fetched(t, data), data, device);
    }
  }

  /** The model has halted exactly when one of the commands was such. */
  lemma {:induction false} HaltsIff(s: Snap, data: seq<byte>, device: History -> bv16, n: nat)
    requires s.Valid(data) && s.halt == Live
    ensures Runs(s, data, device, n).halt.Endless() <==> exists k: nat :: k < n && LoopsAt(s, data, device, k)
    ensures Runs(s, data, device, n).halt == Overrun <==> exists k: nat :: k < n && OverrunsAt(s, data, device, k)
  {
    hide Run, LoopsAt, OverrunsAt;
    if n > 0 {
      HaltsIff(s, data, device, n - 1);
      LastHaltsIff(s, data, device, n);
    }
  }

  /** `xsvfExecute` comes back from the stream after n commands. */
  predicate Returned(s: Snap, data: seq<byte>, device: History -> bv16, n: nat)
    requires s.Valid(data)
  {
    var r := Runs(s, data, device, n);
    r.halt == Live && (r.error != NoError || r.complete)
  }

  /** After at most one command per byte and one more, the player has returned, has reached a command from
      which it never comes back, or has left its buffers; and only one of the three. */
  lemma PlayerStops(s: Snap, data: seq<byte>, device: History -> bv16, n: nat)
    requires s.Valid(data) && s.halt == Live && n > |data| - s.pos
    ensures var loops, overruns := exists k: nat :: k < n && LoopsAt(s, data, device, k),
                                   exists k: nat :: k < n && OverrunsAt(s, data, device, k);
            && (Returned(s, data, device, n) || loops || overruns)
            && (Returned(s, data, device, n) ==> !loops && !overruns) && !(loops && overruns)
  {
    hide Run, LoopsAt, OverrunsAt;
    CommandsRunOut(s, data, device, n);
    HaltsIff(s, data, device, n);
  }

  lemma {:induction false} StoppedForGood(s: Snap, data: seq<byte>, device: History -> bv16, n: nat, k: nat)
    requires s.Valid(data) && n <= k && !Runs(s, data, device, n).Running()
    ensures Runs(s, data, device, k) == Runs(s, data, device, n)
    decreases k
  {
    hide Run;
    if n < k {
      StoppedForGood(s, data, device, n, k - 1);
      StoppedStays(Runs(s, data, device, k - 1), data, device);
    }
  }

  /** Whatever the sizes: a stream that reaches such a command is never returned from. */
  lemma LoopNeverReturns(s: Snap, data: seq<byte>, device: History -> bv16, k: nat)
    requires s.Valid(data) && s.halt == Live && LoopsAt(s, data, device, k)
    ensures forall n: nat :: !Returned(s, data, device, n)
  {
    hide Run, Runs, LoopsAt, OverrunsAt;
    forall n: nat
      ensures !Returned(s, data, device, n)
    {
      HaltsIff(s, data, device, k + 1);
      HaltsIff(s, data, device, n);
      if n <= k && Returned(s, data, device, n) {
        StoppedForGood(s, data, device, n, k + 1);
      }
    }
  }

  /** On a stream that never leaves the buffers, `xsvfExecute` returns if and only if it reaches no command
      from which it never comes back. */
  lemma ReturnsIff(s: Snap, data: seq<byte>, device: History -> bv16)
    requires s.Valid(data) && s.halt == Live && forall k: nat :: !OverrunsAt(s, data, device, k)
    ensures (exists n: nat :: Returned(s, data, device, n)) <==> forall k: nat :: !LoopsAt(s, data, device, k)
  {
    hide Run, Runs, LoopsAt, OverrunsAt, Returned;
    PlayerStops(s, data, device, |data| - s.pos + 1);
    if k: nat :| LoopsAt(s, data, device, k) {
      LoopNeverReturns(s, data, device, k);
    }
  }

  // ----- which streams never leave the buffers -----

  lemma InstructionsKeepSizes(s: Snap, data: seq<byte>, device: History -> bv16)
    requires s.Valid(data) && s.error == NoError
    ensures SameSize(s, XSIR(s, data, device)) && SameSize(s, XSIR2(s, data, device))
  {
    hide Retry.Shift, Value, Load, Val.Valid, Job.Valid;
  }

  lemma ScansKeepSizes(s: Snap, data: seq<byte>, device: History -> bv16, last: bool)
    requires s.Valid(data) && s.error == NoError
    ensures SameSize(s, XSDR(s, data, device)) && SameSize(s, XSDRTDO(s, data, device))
    ensures SameSize(s, XSDRBCE(s, data, device, last)) && SameSize(s, XSDRTDOBCE(s, data, device, last))
  {
    hide Retry.Shift, Value, Load, Val.Valid, Job.Valid;
  }

  lemma XSDRINCKeepsSizes(s: Snap, data: seq<byte>, device: History -> bv16)
    requires s.Valid(data) && s.error == NoError
    ensures SameSize(s, XSDRINC(s, data, device))
  {
    hide XSDR, WordsAfter, InStep;
    if s.Fits() {
      XSDRTracks(s, data, device);
      ScansKeepSizes(s, data, device, false);
      WordsAfterKeep(XSDR(s, data, device), data, device);
    }
  }

  lemma OthersKeepSizes(s: Snap, data: seq<byte>, ir: bool)
    requires s.Valid(data) && s.error == NoError
    ensures SameSize(s, XRUNTEST(s, data)) && SameSize(s, XREPEAT(s, data)) && SameSize(s, XENDXR(s, data, ir))
    ensures SameSize(s, XTDOMASK(s, data)) && SameSize(s, XSETSDRMASKS(s, data))
  {
    hide Value, Take, Load, Val.Valid;
  }

  lemma WalksKeepSizes(s: Snap, data: seq<byte>)
    requires s.Valid(data) && s.error == NoError
    ensures SameSize(s, XSTATE(s, data)) && SameSize(s, XWAIT(s, data)) && SameSize(s, XCOMMENT(s, data))
  {
    hide Value, Take, Load, Val.Valid, Goto, WaitIn, WaitThere;
  }

  lemma PerformKeepsSizes(s: Snap, data: seq<byte>, device: History -> bv16)
    requires s.Valid(data) && s.error == NoError
    ensures if s.command == 8 then SameSize(WithSize(s, SizeOperand(data, s.pos)), Perform(s, data, device))
            else SameSize(s, Perform(s, data, device))
  {
    hide XSIR, XSIR2, XSDR, XSDRTDO, XSDRBCE, XSDRTDOBCE, XSDRINC, XTDOMASK, XRUNTEST, XREPEAT,
         XSETSDRMASKS, XENDXR, XCOMMENT, XSTATE, XWAIT, Value, Take;
    InstructionsKeepSizes(s, data, device);
    ScansKeepSizes(s, data, device, s.command == 14 || s.command == 17);
    XSDRINCKeepsSizes(s, data, device);
    OthersKeepSizes(s, data, s.command == 19);
    WalksKeepSizes(s, data);
  }

  /** The k-th command, if it is an XSDRSIZE, names at most 32767 bytes. */
  predicate SmallSizeAt(s: Snap, data: seq<byte>, device: History -> bv16, k: nat)
    requires s.Valid(data)
  {
    var t := Fetched(Runs(s, data, device, k), data);
    t.command == 8 ==> AsNumBytes(SizeOperand(data, t.pos)) <= MAX_SHORT
  }

  lemma {:induction false} SizesFit(s: Snap, data: seq<byte>, device: History -> bv16, n: nat)
    requires s.Valid(data) && s.Fits() && forall k: nat :: k < n ==> SmallSizeAt(s, data, device, k)
    ensures Runs(s, data, device, n).Fits()
  {
    hide Perform, SizeOperand;
    if n > 0 {
      SizesFit(s, data, device, n - 1);
      var t := Runs(s, data, device, n - 1);
      assert SmallSizeAt(s, data, device, n - 1);
      if t.Running() {
        PerformKeepsSizes(Fetched(t, data), data, device);
      }
    }
  }

  /** So for a stream whose sizes are small, returning is decided by the other operands alone. */
  lemma SmallSizesReturnIff(s: Snap, data: seq<byte>, device: History -> bv16)
    requires s.Valid(data) && s.halt == Live && s.Fits() && forall k: nat :: SmallSizeAt(s, data, device, k)
    ensures forall k: nat :: !OverrunsAt(s, data, device, k)
    ensures (exists n: nat :: Returned(s, data, device, n)) <==> forall k: nat :: !LoopsAt(s, data, device, k)
  {
    hide Runs, LoopsAt, Returned, SmallSizeAt;
    forall k: nat
      ensures !OverrunsAt(s, data, device, k)
    {
      SizesFit(s, data, device, k);
    }
    ReturnsIff(s, data, device);
  }
}

/** Streams of each kind, from any state of a player about to start and on any device. */
module EndlessExamples {
  import opened Bytes
  import opened EndlessLaws
  import opened Errors
  import opened LenVals
  import opened PlayerSpec
  import opened Ports
  import opened Source

  /** A player that has not read anything. */
  ghost predicate AtStart(s: Snap, data: seq<byte>) {
    s.Valid(data) && s.Running() && s.Fits() && s.pos == 0
  }

  /** XCOMMENT, one letter, and the end of the file. */
  lemma CommentNeverReturns(s: Snap, device: History -> bv16)
    requires AtStart(s, [22, 65])
    ensures forall n: nat :: !Returned(s, [22, 65], device, n)
  {
    hide Returned, XSDR;
    var data: seq<byte> := [22, 65];
    assert LoopsAt(s, data, device, 0);
    LoopNeverReturns(s, data, device, 0);
  }

  /** XSTATE, or XWAIT, to state 0x10. */
  lemma StateNeverReturns(s: Snap, device: History -> bv16, c: byte)
    requires (c == 18 || c == 23) && AtStart(s, [c, 16])
    ensures forall n: nat :: !Returned(s, [c, 16], device, n)
  {
    hide Returned, XSDR;
    var data: seq<byte> := [c, 16];
    assert LoopsAt(s, data, device, 0);
    LoopNeverReturns(s, data, device, 0);
  }

  function BigEndian(a: nat, b: nat, c: nat, d: nat): nat {
    16777216 * a + 65536 * b + 256 * c + d
  }

  lemma ValueOfFour(v: seq<byte>)
    requires |v| == 4
    ensures Value(v) == BigEndian(v[0], v[1], v[2], v[3])
  {
    assert v[..3][..2] == v[..2] && v[..2][..1] == v[..1] && v[..1][..0] == [];
    assert Value(v[..1]) == v[0];
    assert Value(v[..2]) == 256 * Value(v[..1]) + v[1];
    assert Value(v[..3]) == 256 * Value(v[..2]) + v[2];
  }

  lemma SizeIs(data: seq<byte>, pos: nat)
    requires pos + 4 <= |data|
    ensures Value(Take(data, pos, 4)) == BigEndian(data[pos], data[pos + 1], data[pos + 2], data[pos + 3])
  {
    hide Value;
    var v := Take(data, pos, 4);
    ValueOfFour(v);
    assert v[0] == At(data, pos + 0) && v[1] == At(data, pos + 1) && v[2] == At(data, pos + 2) && v[3] == At(data, pos + 3);
  }

  /** One XSDRSIZE command. */
  lemma OneSize(s: Snap, data: seq<byte>, device: History -> bv16, bits: nat)
    requires s.Valid(data) && s.Running() && s.pos + 5 <= |data| && data[s.pos] == 8
    requires bits == BigEndian(data[s.pos + 1], data[s.pos + 2], data[s.pos + 3], data[s.pos + 4])
    ensures var r := Run(s, data, device);
            r == WithSize(s.(command := 8, count := s.count + 1, tdi := r.tdi, pos := s.pos + 5), bits)
  {
    hide Value, Take, ShortBytes;
    SizeIs(data, s.pos + 1);
  }

  /** One that is accepted. */
  lemma SizeTaken(s: Snap, data: seq<byte>, device: History -> bv16, bits: nat)
    requires s.Valid(data) && s.Running() && s.pos + 5 <= |data| && data[s.pos] == 8
    requires bits == BigEndian(data[s.pos + 1], data[s.pos + 2], data[s.pos + 3], data[s.pos + 4])
    requires ShortBytes(bits) <= MAX_LEN
    ensures var r := Run(s, data, device);
            && r.Running() && r.bits == bits && r.bytes == ShortBytes(bits)
            && r.pos == s.pos + 5 && r.dataMask == s.dataMask
  {
    hide Run, ShortBytes;
    OneSize(s, data, device, bits);
  }

  /** A size of 65537 bytes is cut to one byte and accepted; XCOMPLETE then returns success. */
  lemma CutSizeReturns(s: Snap, device: History -> bv16)
    requires AtStart(s, [8, 0, 8, 0, 8, 0])
    ensures var r := Runs(s, [8, 0, 8, 0, 8, 0], device, 2); r.complete && r.error == NoError && r.halt == Live
  {
    hide Load;
    var data: seq<byte> := [8, 0, 8, 0, 8, 0];
    OneSize(s, data, device, 524296);
    TwoRuns(s, data, device);
  }

  lemma TwoRuns(s: Snap, data: seq<byte>, device: History -> bv16)
    requires s.Valid(data)
    ensures Runs(s, data, device, 1) == Run(s, data, device)
    ensures Runs(s, data, device, 2) == Run(Run(s, data, device), data, device)
    ensures Runs(s, data, device, 3) == Run(Run(Run(s, data, device), data, device), data, device)
  {
    hide Run;
    assert Runs(s, data, device, 0) == s;
    assert Runs(s, data, device, 1) == Run(s, data, device);
    assert Runs(s, data, device, 2) == Run(Runs(s, data, device, 1), data, device);
  }

  /** If an XSDR follows instead, it shifts 524296 bits out of one byte. */
  lemma CutSizeOverruns(s: Snap, device: History -> bv16)
    requires AtStart(s, [8, 0, 8, 0, 8, 3])
    ensures OverrunsAt(s, [8, 0, 8, 0, 8, 3], device, 1)
  {
    hide Load;
    var data: seq<byte> := [8, 0, 8, 0, 8, 3];
    OneSize(s, data, device, 524296);
    TwoRuns(s, data, device);
  }

  /** A data mask of 256 bytes, then XSDRINC with a size of no bits. */
  const LONG_MASK: seq<byte> := [8, 0, 0, 8, 0, 10] + seq<byte>(512, _ => 0) + [8, 0, 0, 0, 0, 11]

  lemma LongMaskNeverReturns(s: Snap, device: History -> bv16)
    requires AtStart(s, LONG_MASK)
    ensures forall n: nat :: !Returned(s, LONG_MASK, device, n)
  {
    hide Returned, Runs, Run, LoopsAt;
    var data := LONG_MASK;
    LongMaskIs();
    LongMaskRead(s, data, device);
    var r := Run(Run(s, data, device), data, device);
    SizeOfNone(r, data, device);
    TwoRuns(s, data, device);
    CountsForEver(s, data, device, 3);
    LoopNeverReturns(s, data, device, 3);
  }

  lemma LongMaskIs()
    ensures |LONG_MASK| == 524 && LONG_MASK[..6] == [8, 0, 0, 8, 0, 10] && SizeZeroAt(LONG_MASK, 518)
  {
  }

  predicate SizeZeroAt(data: seq<byte>, pos: nat) {
    && pos + 6 <= |data| && data[pos] == 8 && BigEndian(data[pos + 1], data[pos + 2], data[pos + 3], data[pos + 4]) == 0
    && data[pos + 5] == 11
  }

  lemma LongMaskRead(s: Snap, data: seq<byte>, device: History -> bv16)
    requires AtStart(s, data) && |data| == 524 && data[..6] == [8, 0, 0, 8, 0, 10]
    ensures var r := Run(Run(s, data, device), data, device);
            r.Running() && r.pos == 518 && r.dataMask.len == 256
  {
    hide Run;
    assert data[0] == data[..6][0] && data[1] == data[..6][1] && data[2] == data[..6][2];
    assert data[3] == data[..6][3] && data[4] == data[..6][4] && data[5] == data[..6][5];
    OneSize(s, data, device, 2048);
    BothMasks(Run(s, data, device), data, device);
  }

  lemma SizeOfNone(s: Snap, data: seq<byte>, device: History -> bv16)
    requires s.Valid(data) && s.Running() && SizeZeroAt(data, s.pos)
    ensures var r := Run(s, data, device);
            r.Running() && r.bits == 0 && r.bytes == 0 && r.dataMask == s.dataMask && At(data, r.pos) == 11
  {
    hide Run, WithSize;
    SizeTaken(s, data, device, 0);
  }

  lemma BothMasks(s: Snap, data: seq<byte>, device: History -> bv16)
    requires s.Valid(data) && s.Running() && s.bytes >= 0 && s.pos + 1 + 2 * s.bytes <= |data| && data[s.pos] == 10
    ensures var r := Run(s, data, device);
            r == s.(command := 10, count := s.count + 1, pos := s.pos + 1 + 2 * s.bytes, address := r.address, dataMask := r.dataMask)
            && r.dataMask.len == s.bytes
  {
    hide Take;
  }

  /** With no bits to shift, the first word is shifted without an error. */
  lemma CountsForEver(s: Snap, data: seq<byte>, device: History -> bv16, k: nat)
    requires s.Valid(data)
    requires var t := Runs(s, data, device, k);
             t.Running() && t.bits == 0 && t.bytes == 0 && t.dataMask.len > 255 && At(data, t.pos) == 11
    ensures LoopsAt(s, data, device, k)
  {
    hide Runs, Take;
    var t := Fetched(Runs(s, data, device, k), data);
    assert t.Fits();
    assert XSDR(t, data, device).error == NoError;
  }
}
