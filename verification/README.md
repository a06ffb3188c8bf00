# Models of the JTAG player, the semaphore, the timing driver and their kernels

A Dafny 4.11 model, with proofs, of five parts of the driver repository. `dafny verify dfyconfig.toml` checks it all.

## What is modelled

**XSVF player** (`jtag/`). The player interprets a byte stream, keeps a byte it believes to be the TAP state and
writes TMS, TDI and TCK one at a time. `Tap` has the sixteen-state controller of clause 6.1 of IEEE Std 1149.1-2001
and the player's navigation table; `Ports` the port word and the history of writes; `Hardware` a conforming
controller with two scan registers, clocked by that history. `Lines` says what it is for a belief to be true.
`LenVals`, `Shifting`, `Retry` and `Masking` are the byte values, the shift, the retry loop and the bit-scatter
decompressor; `PlayerSpec` has one function per command on a snapshot of the player, `XsvfPlayer` the player as an
object whose methods update it in place, each proved against its function. `LoadLaws`, `PlayerLaws` and `SeriesLaws` hold
the results end to end and over whole streams; `PathLaws` has the states and waits of the hardware, and `CommandLaws`
what each command byte does, said of the stream and the hardware; `EndlessLaws` says on which streams `xsvfExecute`
returns. TDO is any function of the history, so every device is covered; the hardware's initial state, clock level,
registers and captured values are arbitrary.

**Semaphore** (`cdcm/cdcmTime.c`, and its copy `ctr/driver/cdcmSem.c`). `SemSpec` is a state machine whose steps are the
critical sections, taken in any order by any number of tasks; a blocked task's stack entry is a ticket numbered in
order of arrival. `SemOps` has the operations on a count and a list of waiters.

**Timing receiver driver** (`ctr/driver/ctrdrvr-pci.c`; `ctr/driver/ctrdrvr-vme.c` has the same logic). `ReadQueue` is the
per-client ring, `ReadProtocol` the ring, the semaphore of `SemSpec`, the read time-out and the reader together, one
shared access a step; a timer once registered may fire at any later time, also after it was cancelled, and its callback
shares a mutex with `timeout` (`ctr/driver/EmulateLynxOs.c`). `Timing`, `Connections`, `TimingRuns` and `TimingOps` are
the trigger table, the client masks and the interrupt enables; `Packing` the register fields; `HptdcSpec` and `HptdcOps`
the second TAP walk, against the same controller as the player.

**Kernels**. `Lists` (circular lists on the heap), `Adler` (the checksum with deferred reduction), `Pages` (the scatter list).

**Amplifier line** (`acdx/lib/libamp.c`). `Framing` and `AmpOps`: escaping, sizes, checksums, requests and replies.

## Where the code differs from what one would expect

- A repeat count of 255 wraps the unsigned char counter to zero, so exhausted retries report a TDO mismatch
  (`Retry.RetryLaw`).
- `xsvfExecute` does not return from every stream. The loop that counts mask bytes with an unsigned char never ends on a
  mask of more than 255 bytes, nor does the navigation to an `XSTATE` or `XWAIT` byte above 0x0F, nor a comment with no
  closing zero. A model cannot run on, so it stops there with a mark (`halt`) that the source does not have;
  `EndlessLaws.LoopNeverReturns` and `EndlessLaws.ReturnsIff` say of which streams exactly that happens, and
  `XsvfPlayer.Player.Execute` ensures it.
- `xsvfDoXSDRSIZE` checks a byte count already cut to a short, so some sizes of more than 32767 bytes are accepted. The
  player goes on with the cut count; at the first command that shifts with it, or reads a value of a negative length,
  the source leaves its buffers and the model stops with a mark of its own, after which nothing is claimed
  (`EndlessExamples.CutSizeReturns`, `EndlessExamples.CutSizeOverruns`).
- `CtrDrvrRead` stores the result of `timeout` in an unsigned field, so its test for a negative result (line 1969 of
  ctrdrvr-pci.c) never holds and a read without a free timer waits without one.
- In the same function the empty-queue exit is reachable, exactly for clients with a time-out
  (`ReadProtocol.EmptyExitIffTimed`), when a timer callback begins between the return of `timeout` and the store of its
  result (`ReadProtocol.ReadsFindEntries`, `ReadProtocol.RaceFindsNothing`).
- SET_ACTION has a branch that claims a free slot; a free slot has class zero, which is the hardware class, and that
  class is refused first, so on well-formed tables the branch is dead (`TimingRuns.ActionKeeps`).
- `DisableInterrupts` ignores the caller's own other triggers (`Connections.OwnTriggerSilenced`).
- `HptdcCommand` without the parity flag works for exactly one register with bits (`HptdcSpec.WorksIffOneField`).

## Model

| member | source | states |
|---|---|---|
| `Tap.BranchIsNext` | jtag/micro.c:545-687 | every branch of the navigation switch moves the believed state exactly as a TMS edge moves the controller of clause 6.1 of IEEE Std 1149.1-2001 |
| `Tap.RankDrops` | jtag/micro.c:542-690 | a ranking function: each edge of a legal, non-reset navigation lowers it by exactly one and it is never above seven |
| `Tap.WalkArrivesIff` | jtag/micro.c:542-690 | the navigation loop reaches its target if and only if the target byte is at most 0x0F |
| `Tap.FiveOnesReset` | jtag/micro.c:499-512 | five edges with TMS high reach Test-Logic-Reset from any of the sixteen states |
| `Ports.Port.SetPort` | jtag/ports.c:47-71 | the pin named takes its level and no other does; every complement bit of the word written is the opposite of its pin |
| `Ports.Port.ReadTDOBit` | jtag/ports.c:84-91 | the level read is bit 8 of the raw device register, since its bytes are swapped on the way in as on the way out; nothing is written |
| `Ports.Port.WaitTime` | jtag/ports.c:96-99 | just two entries join the history: TCK lowered with the other pins as they were, then the time that passes |
| `Hardware.QuietWait` | jtag/ports.c:96-99 | a wait is no rising edge: the controller and both scan registers stay as they were, with TCK low |
| `Ports.Port.TmsTransition` | jtag/micro.c:472-477 | TMS is set and TCK goes low and high, and that is all that is written |
| `Hardware.PulseReacts` | jtag/micro.c:472-477 | one pulse is one rising edge for the hardware, whatever level TCK had |
| `Hardware.PulseClocksOnce` | jtag/micro.c:472-477 | a pulse moves the controller exactly one state by the level of TMS |
| `Lines.ResetSynchronises` | jtag/micro.c:499-512 | the reset sequence makes belief and hardware agree from any hardware state and any TCK level |
| `Lines.GotoInStep` | jtag/micro.c:492-694 | a true belief stays true across every navigation, refused ones included, and TMS is low on arrival in a shift state |
| `Lines.GotoEdges` | jtag/micro.c:492-694 | a navigation takes at most seven edges; its exact number of pin writes |
| `Navigate.GotoTapState` | jtag/micro.c:492-694 | the loop writes exactly the specified pins, ends, and returns the illegal-state code exactly for the refused pairs |
| `Shifting.CapturedBits` | jtag/micro.c:724-772 | bit k of the captured value is the k-th TDO sample, least significant first, and the unused top bits are zero |
| `Shifting.ShiftSplit` | jtag/micro.c:710-772 | shifting a then b without leaving is shifting a + b |
| `Shifting.SamplesSplit` | jtag/micro.c:710-772 | and samples the same TDO bits |
| `ShiftingOps.ShiftByte` | jtag/micro.c:736-770 | the bit loop of one byte drives and samples just the bits of that byte, TMS up on the last bit of an exiting scan only |
| `ShiftingOps.ShiftOnly` | jtag/micro.c:710-772 | the whole in-place shift: pins driven and capture buffer stored for every bit count, bytes from the last to the first |
| `ScanLaws.ShiftRuns` | jtag/micro.c:710-772 | a shift sends the bits through the selected register, touches no other, captures nothing, and leaves the shift state only when exiting |
| `ScanLaws.SamplesAreContents` | jtag/micro.c:752-763 | on conforming hardware the samples are the old register contents followed by the bits shifted in |
| `ScanLaws.ScanExchanges` | jtag/micro.c:710-772 | for every n, n bits through a register of n bits leave exactly the TDI value in it and exactly its old contents in the captured value |
| `ScanLaws.ShiftInStep` | jtag/micro.c:856-859 | the bare increment of the state byte after an exiting shift keeps the belief true |
| `Retry.MismatchMeans` | jtag/micro.c:848-854 | an attempt fails the comparison if and only if something is expected and some bit that counts under the mask is not as expected in what TDO sent during it |
| `Retry.RetryLaw` | jtag/micro.c:798-921 | scans stop at the first attempt that captures the expected bits, or after ucMaxRepeat + 1; NONE if and only if some attempt captured, wherever the mask has a one, the bits expected; MAXRETRIES exactly for 1 to 254 and TDOMISMATCH exactly for 0 and, the counter having wrapped, 255 |
| `Retry.AttemptsCount` | jtag/micro.c:840-918 | the last attempt made, the attempts before it whose captured bits were not the expected ones, and the bench it leaves |
| `Retry.ShiftEndsIn` | jtag/micro.c:798-921 | an exiting shift ends in Run-Test/Idle if the run-test time is nonzero and in the end state otherwise; the belief stays true through every retry |
| `PathLaws.GotoEvents` | jtag/micro.c:514-690 | the states the hardware goes through on a navigation: the route, with one step to the exit state before it if a pause state is asked for while in it |
| `PathLaws.ScanEvents` | jtag/micro.c:736-770 | a scan of n bits is n - 1 edges in the shift state and one that leaves it or not |
| `PathLaws.LeavesToEnd` | jtag/micro.c:882-894 | every state and wait after a scan that ends: to the end state and, with a run-test time, on to Run-Test/Idle and a wait of that time there |
| `PathLaws.LeavesForRetry` | jtag/micro.c:863-894 | every state and wait before a retry: Pause, Shift and Exit1 again, Run-Test/Idle, and a wait of a quarter more |
| `PathLaws.ShiftWaits` | jtag/micro.c:798-921 | all waits of a call, however often it retried: one in Run-Test/Idle before each retry, each a quarter longer than the one before, and one of the last length at the end; none with no run-test time or if the scan goes on |
| `PathLaws.NoBitsWaits` | jtag/micro.c:827-838 | with no bits nothing is shifted, but a wait is made |
| `LoadLaws.LeavingKeeps` | jtag/micro.c:882-894 | the way out of a scan and the wait leave both scan registers as they were and capture nothing |
| `LoadLaws.ScanLoads` | jtag/micro.c:842-896 | an attempt on a register of n bits leaves exactly the TDI value in it after all navigation and waiting, and captures exactly what it held |
| `LoadLaws.ShiftLoads` | jtag/micro.c:798-921 | and so does the whole call, however often it retried: the last attempt's value is in the register and its old contents in the capture buffer |
| `RetryOps.Attempt` | jtag/micro.c:842-896 | one pass of the do-while loop: scan, compare, retry path or end path |
| `RetryOps.Shift` | jtag/micro.c:798-921 | the method does what the specification of the retry law does, with the same code and capture buffer |
| `LenVals.LenVal.Value` | jtag/lenval.c:15-28 | the big-endian number of the significant bytes |
| `LenVals.LenVal.ReadVal` | jtag/lenval.c:178-189 | the next n bytes of the stream, 0xFF past its end; the rest of the buffer is untouched |
| `LenVals.LenVal.AddVal` | jtag/lenval.c:140-169 | the byte-wise sum over the length of the first operand, whichever of the three values are the same object; bytes past it stay |
| `Bytes.AddBytesIsSum` | jtag/lenval.c:140-169 | digits and carry out together are the exact sum |
| `Bytes.AddBytesModulo` | jtag/lenval.c:140-169 | dropping the carry is addition modulo 256^len |
| `LenVals.EqualLenVal` | jtag/lenval.c:53-83 | true if and only if every expected byte agrees with the captured one under the optional mask |
| `LenVals.MatchesMeans` | jtag/lenval.c:53-83 | that is: if and only if every bit at which the mask, if there is one, has a one is the same in both |
| `Masking.NextWordMeans` | jtag/micro.c:970-1032 | bit by bit: where the mask has a one, the next word has the data bit of its rank among the ones; elsewhere it has that of the old word plus the address mask modulo 256^len |
| `Masking.TotalOnesIsOnes` | jtag/micro.c:1351-1361 | counting a mask byte by byte counts exactly its set bits |
| `MaskingOps.PlaceBit` | jtag/micro.c:1002-1023 | one set mask bit: a data byte is fetched when the last is used up, never below index zero, and one TDI bit is written |
| `MaskingOps.MaskByte` | jtag/micro.c:992-1029 | the bits of one mask byte, stopping when the rest of it is zero |
| `MaskingOps.DoSDRMasking` | jtag/micro.c:970-1032 | the in-place update is the scatter of the data over the sum |
| `Commands.ShiftTracks` | jtag/micro.c:798-921 | whatever the hardware started as, a shift keeps a true belief true |
| `Commands.WaitInTracks` | jtag/micro.c:1583-1622 | so does XWAIT with both navigations skipped or made |
| `Commands.WaitThereTracks` | jtag/micro.c:1583-1622 | and so does its first half alone, as far as a bad end state lets it get |
| `PlayerLaws.RunTracks` | jtag/micro.c:1662-1688 | so does every command with any operands |
| `PlayerLaws.PlayerKnowsTheTap` | jtag/micro.c:1637-1688 | after initialisation on any hardware and any number of commands of any stream against any TDO answers, the tracked state is the controller's state and TMS is low in a shift state |
| `PlayerLaws.InstructionLoaded` | jtag/micro.c:1097-1176 | after XSIR or XSIR2 the hardware's instruction register holds just the operand in the stream, wherever the command went next, if the register is as long as the operand says |
| `PlayerLaws.DataLoaded` | jtag/micro.c:1188-1456 | after XSDR, XSDRTDO or one of their begin, continue and end forms, however often the scan was repeated, the data register holds just the operand in the stream, if it is as long as XSDRSIZE said |
| `Hardware.LengthKept` | jtag/micro.c:472-477 | a scan register whose captures all have its length keeps that length over every history |
| `PlayerLaws.RunProgress` | jtag/micro.c:1662-1688 | a command that leaves the player running has used up at least one byte of the stream |
| `PlayerLaws.CommandsRunOut` | jtag/micro.c:1713-1741 | no stream keeps the player busy for more than one command per byte and one more |
| `EndlessLaws.CommentEndsIff` | jtag/micro.c:1558-1567 | the text loop of XCOMMENT reads a zero in some pass if and only if a zero byte is left in the stream |
| `EndlessLaws.CounterEndsIff` | jtag/micro.c:1353-1361 | the unsigned char that counts mask bytes reaches the length of the mask in some pass if and only if that is at most 255, and then in that very pass |
| `EndlessLaws.PerformHaltsIff` | jtag/micro.c:291-323 | a command is marked endless if and only if the source loops on its operand for ever (a state above 0x0F, a comment that never closes, a data mask over 255 bytes after a first word without error), and marked as an overrun if and only if, the byte count having been cut, it reads a value of a negative length or shifts |
| `EndlessLaws.CutIsTooLong` | jtag/micro.c:460-463 | the byte count is cut exactly when the size was over 32767 bytes, and a shift of it then leaves a buffer wherever in it it starts |
| `EndlessLaws.HaltsIff` | jtag/micro.c:1662-1688 | within n commands either mark is set if and only if one of them was reached with such an operand, or with such a count |
| `EndlessLaws.PlayerStops` | jtag/micro.c:1713-1741 | within one command per byte and one more, exactly one of three: xsvfExecute has returned, has reached a command that loops for ever, or has left a buffer |
| `EndlessLaws.LoopNeverReturns` | jtag/micro.c:1713-1741 | for every stream, start and TDO, whatever its sizes: once a command that loops for ever is reached, xsvfExecute has not returned and never does |
| `EndlessLaws.ReturnsIff` | jtag/micro.c:1713-1741 | for every stream, start and TDO on which no buffer is left: xsvfExecute returns if and only if no command it reaches loops for ever |
| `EndlessLaws.SmallSizesReturnIff` | jtag/micro.c:1243-1257 | no buffer is left on a stream none of whose XSDRSIZE commands names more than 32767 bytes, so for those the equivalence holds |
| `EndlessExamples.CommentNeverReturns` | jtag/micro.c:1545-1572 | a stream on which it never returns: XCOMMENT and one letter |
| `EndlessExamples.StateNeverReturns` | jtag/micro.c:542-690 | two more: XSTATE, or XWAIT, to state 0x10 |
| `EndlessExamples.LongMaskNeverReturns` | jtag/micro.c:1351-1361 | and one with a data mask of 256 bytes |
| `EndlessExamples.CutSizeReturns` | jtag/micro.c:1243-1257 | a size of 65537 bytes is accepted as one byte, and XCOMPLETE then returns success |
| `EndlessExamples.CutSizeOverruns` | jtag/micro.c:1188-1204 | while an XSDR after it shifts 524296 bits out of one byte |
| `SeriesLaws.WordLaw` | jtag/micro.c:1334-1392 | bit by bit, word k + 1 of an XSDRINC command from word k, the address mask, the data mask and piece k of the data, which is at the bytes k n to k n + n after the count byte, n being the least number of bytes that holds the ones of the mask |
| `SeriesLaws.XsdrincIsSeries` | jtag/micro.c:1334-1392 | XSDRINC drives the pins, captures the bits and returns the code of its words shifted one by one, up to the first failure |
| `SeriesLaws.CompressionLaw` | jtag/micro.c:1188-1204 | an XSDRINC command and the stream of XSDR commands spelling out its words leave the same pin history, captured bits and code |
| `SeriesLaws.SplitScanIsOneScan` | jtag/micro.c:1406-1424 | a begin, continue, end series drives the very pins of one scan of the concatenated bits |
| `SeriesLaws.SplitCommandIsPart` | jtag/micro.c:1406-1424 | XSDRB, XSDRC and XSDRE perform exactly such parts |
| `SeriesLaws.SplitScanLaw` | jtag/micro.c:1406-1424 | over a stream of XSDRB, any number of XSDRC, and XSDRE: the pins of one scan of all their bits, the player still running behind them, and a data register of that length holding just those bits |
| `CommandLaws.CompleteLaw` | jtag/micro.c:1066-1070 | XCOMPLETE completes and changes nothing else |
| `CommandLaws.IllegalLaw` | jtag/micro.c:1671-1684 | a byte that is no command is refused with nothing changed |
| `CommandLaws.MaskLaw` | jtag/micro.c:1079-1086 | XTDOMASK: the mask becomes the next bytes and nothing else changes |
| `CommandLaws.InstructionLaw` | jtag/micro.c:1097-1131 | XSIR: a length byte, and that many bits of the next bytes are shifted as an instruction, compared with nothing, to the end state of XENDIR |
| `CommandLaws.LongInstructionLaw` | jtag/micro.c:1142-1176 | XSIR2: the same with a length of two bytes, refused if its bytes are too many |
| `CommandLaws.DataLaw` | jtag/micro.c:1188-1204 | XSDR: the next bytes are shifted as data, compared under the mask with what was last expected, to the end state of XENDDR, with the run-test time and repeats set last |
| `CommandLaws.RunTestLaw` | jtag/micro.c:1213-1219 | XRUNTEST: the run-test time becomes the big-endian number of the next four bytes |
| `CommandLaws.RepeatLaw` | jtag/micro.c:1228-1234 | XREPEAT: the repeats become the next byte |
| `CommandLaws.SizeLaw` | jtag/micro.c:1243-1257 | XSDRSIZE: the bits become the next four bytes, and the bytes the least number that holds them unless it was cut; refused if that is over the limit |
| `CommandLaws.ExpectLaw` | jtag/micro.c:1268-1286 | XSDRTDO: the TDI value, then the expected one, shifted as data and compared under the mask |
| `CommandLaws.MasksLaw` | jtag/micro.c:1299-1314 | XSETSDRMASKS: the address mask, then the data mask |
| `CommandLaws.IncLaw` | jtag/micro.c:1334-1392 | XSDRINC: the first word, a count byte and that many pieces of the least size for the mask; its words are shifted as data one by one up to the first failure, and the place in the stream behind them |
| `CommandLaws.SplitLaw` | jtag/micro.c:1406-1424 | XSDRB, XSDRC, XSDRE: nothing compared, no wait, and only the last leaves Shift-DR |
| `CommandLaws.SplitExpectLaw` | jtag/micro.c:1437-1456 | XSDRTDOB, XSDRTDOC, XSDRTDOE: every bit compared, no wait or repeat, and only the last leaves Shift-DR |
| `CommandLaws.ScanCode` | jtag/micro.c:899-920 | the code of such a scan: NONE if and only if some attempt captured the expected bits, else the one the repeats ask for |
| `CommandLaws.StateLaw` | jtag/micro.c:1466-1477 | XSTATE: the hardware is in the state named and the player knows it, or, exactly if an exit state is named from elsewhere than its pause state, nothing is driven and the code is ILLEGALSTATE |
| `CommandLaws.PauseLaw` | jtag/micro.c:514-540 | a pause state asked for while in it: the six or seven states by which the hardware leaves it and comes back, by way of a capture |
| `CommandLaws.LostStateLaw` | jtag/micro.c:542-690 | to a state above 0x0F the source never gets; nothing is driven before that is marked |
| `CommandLaws.EndLaw` | jtag/micro.c:1488-1535 | XENDIR, XENDDR: 0 is Run-Test/Idle, 1 the pause state of that column, and anything else an error |
| `CommandLaws.CommentLaw` | jtag/micro.c:1545-1572 | XCOMMENT: on to behind the first zero byte |
| `CommandLaws.OpenCommentLaw` | jtag/micro.c:1558-1567 | without a zero byte: to the end of the stream, and then for ever |
| `CommandLaws.WaitLaw` | jtag/micro.c:1583-1622 | XWAIT: the wait state, the end state and the time come in this order; one wait of that time with the hardware in the wait state, and then it is in the end state |
| `CommandLaws.LostLaw` | jtag/micro.c:1583-1622 | with a state above 0x0F, for which the source looks for ever: nothing is driven for a wait state, and for an end state the walk and the wait before it are |
| `XsvfPlayer.Player.DoXTDOMASK` | jtag/micro.c:1079-1086 | the mask is loaded and nothing else changes; a negative length, which the source would write past the buffer with, is marked |
| `XsvfPlayer.Player.DoXSIR` | jtag/micro.c:1097-1131 | one-byte length, then the instruction is shifted |
| `XsvfPlayer.Player.DoXSIR2` | jtag/micro.c:1142-1176 | two-byte length; an oversized instruction is refused before anything is shifted |
| `XsvfPlayer.Player.DoXSDR` | jtag/micro.c:1188-1204 | shift with the previous expected value and mask; here and in the other scans a cut byte count is marked before anything is read |
| `XsvfPlayer.Player.DoXRUNTEST` | jtag/micro.c:1213-1219 | the run-test time is the four-byte operand |
| `XsvfPlayer.Player.DoXREPEAT` | jtag/micro.c:1228-1234 | the repeat count is the operand byte |
| `XsvfPlayer.Player.DoXSDRSIZE` | jtag/micro.c:1243-1257 | both sizes are set, the byte size cut to a short as in the source, and refused exactly if the cut size is too large |
| `XsvfPlayer.Player.DoXSDRTDO` | jtag/micro.c:1268-1286 | both values are loaded in order, then shifted and compared under the mask |
| `XsvfPlayer.Player.DoXSETSDRMASKS` | jtag/micro.c:1299-1314 | both masks are loaded in order; a negative length is marked |
| `XsvfPlayer.Player.CountMaskBits` | jtag/micro.c:1351-1361 | the exact number of ones of a mask of at most 255 bytes |
| `XsvfPlayer.Player.DoXSDRINC` | jtag/micro.c:1334-1392 | first word, then one word per piece until the first error; a mask over 255 bytes, on which the source never returns, is marked after the first word |
| `XsvfPlayer.Player.DoXSDRBCE` | jtag/micro.c:1406-1424 | no comparison and no wait; only the last form leaves Shift-DR |
| `XsvfPlayer.Player.DoXSDRTDOBCE` | jtag/micro.c:1437-1456 | compared without a mask; only the last form leaves Shift-DR |
| `XsvfPlayer.Player.DoXSTATE` | jtag/micro.c:1466-1477 | navigation or refusal; a byte above 0x0F, on which the source never returns, is marked before any edge |
| `XsvfPlayer.Player.DoXENDXR` | jtag/micro.c:1488-1535 | the end state of the named column, or an error that changes neither |
| `XsvfPlayer.Player.DoXCOMMENT` | jtag/micro.c:1545-1572 | the stream is consumed up to and including the next zero byte; if there is none, on which the source never returns, that is marked at its end |
| `XsvfPlayer.Player.DoXWAIT` | jtag/micro.c:1583-1622 | operands, optional navigation, wait with TCK low, optional navigation, errors dropped; a state above 0x0F, on which the source never returns, is marked where its navigation begins, so a bad end state only after the wait |
| `XsvfPlayer.Player.Initialize` | jtag/micro.c:1637-1650 | the values a player starts with, and the belief is true of every hardware |
| `XsvfPlayer.Player.Perform` | jtag/micro.c:291-323 | the command table: each command byte does what its specification says, unknown ones are refused |
| `XsvfPlayer.Player.Run` | jtag/micro.c:1662-1688 | one command unless stopped |
| `XsvfPlayer.Player.Execute` | jtag/micro.c:1713-1741 | it makes n whole commands and then stops, with an error, completed, or marked: endless if and only if one of them was reached with an operand on which the source loops for ever, an overrun if and only if one left a buffer; and the player knows the hardware's TAP state at the end |
| `SemSpec.StepValid` | cdcm/cdcmTime.c:194-330 | every atomic step keeps: tokens imply no waiters, list and grants in enqueue order, each ticket waiting, granted or gone, tokens conserved |
| `SemSpec.RecheckByKind` | cdcm/cdcmTime.c:205-232 | a sleeping ticket that is not granted leaves the list, raising the level by one, if and only if: timed, no time is left, whatever is pending; interruptible, a signal is pending; uninterruptible, never. Otherwise nothing changes |
| `SemSpec.DownByKind` | cdcm/cdcmTime.c:197-232 | a down with no token puts a ticket at the end of the list, unless a signal is pending and it is interruptible, or it is timed with no time left: then it leaves at once |
| `SemSpec.ResetLaw` | cdcm/cdcmTime.c:436-447 | a reset grants every waiter in order and leaves no token |
| `SemSpec.LevelLaw` | cdcm/cdcmTime.c:468-474 | scount is count minus waiters and moves exactly as one integer: +1 a signal, +n ssignaln, -1 a down that succeeds or blocks, +1 a waiter that gives up, by its kind, to 0 by a reset |
| `SemSpec.RunLevel` | cdcm/cdcmTime.c:468-474 | and so over every interleaving of steps |
| `SemSpec.UpsGrant` | cdcm/cdcmTime.c:415-430 | n signals at once grant the first n waiters in order and keep the rest as tokens |
| `SemSpec.SignalsAdd` | cdcm/cdcmTime.c:415-430 | ssignaln of m and then n is ssignaln of m + n |
| `SemSpec.GrantsStay` | cdcm/cdcmTime.c:310-330 | no later step takes back, doubles or reorders a grant |
| `SemSpec.FifoGrants` | cdcm/cdcmTime.c:194-330 | over any interleaving from the first use: grants follow the enqueue order among waiters that did not leave, and waiting, granted and gone exclude each other |
| `SemSpec.TokensConserved` | cdcm/cdcmTime.c:415-447 | initial + signals + reset grants - reset drops = count + acquisitions |
| `SemSpec.NoStarvation` | cdcm/cdcmTime.c:310-330 | with p waiters ahead of it, a waiter sees at most p signals go by; one more and it has been granted or has left |
| `SemSpec.UpMeansSuccess` | cdcm/cdcmTime.c:212-232 | a waiter is on the list if and only if its flag is down; one with its flag up can only return success, one with it down never does |
| `SemOps.Semaphore.Up` | cdcm/cdcmTime.c:310-330 | wake the first waiter or add a token |
| `SemOps.Semaphore.SignalN` | cdcm/cdcmTime.c:415-430 | the loop under the lock; a count below one does nothing |
| `SemOps.Semaphore.Reset` | cdcm/cdcmTime.c:436-447 | all waiters are woken in order, or all tokens dropped |
| `SemOps.Semaphore.Level` | cdcm/cdcmTime.c:468-474 | the level, negative by the number of waiters |
| `SemOps.Semaphore.TryDown` | cdcm/cdcmTime.c:296-308 | fails if and only if the level is not positive, and then changes nothing |
| `SemOps.Semaphore.Down` | cdcm/cdcmTime.c:197-232 | take a token, or enqueue and then go again or sleep; the answer and the new list case by case |
| `SemOps.Semaphore.Recheck` | cdcm/cdcmTime.c:205-232 | success if and only if the flag is up; timed out, interrupted or still asleep case by case of the kind, off the list if and only if it gives up |
| `ReadQueue.LastEvents` | ctr/driver/ctrdrvr-pci.c:1817-1828 | over every run of enqueues, reads, flushes and GET_QUEUE_OVERFLOW: the live entries are exactly the last Size events enqueued since the flush, enqueued = read + live + dropped, and Missed is the number of overwriting events since it was last read or flushed, modulo 2^16 |
| `ReadQueue.Ring.ReadMissed` | ctr/driver/ctrdrvr-pci.c:2507-2512 | GET_QUEUE_OVERFLOW: the number of events dropped since the last call or flush, modulo 2^16, and the count starts again |
| `ReadQueue.GetValid` | ctr/driver/ctrdrvr-pci.c:2003-2011 | what is read is the oldest event neither read nor dropped |
| `ReadQueue.InOrder` | ctr/driver/ctrdrvr-pci.c:2002-2011 | without a drop, what was read followed by what is live is what was enqueued |
| `ReadQueue.Ring.Enqueue` | ctr/driver/ctrdrvr-pci.c:1818-1828 | the overwriting ring refines the bounded sequence; the semaphore is signalled only when nothing was overwritten; Missed counts drops modulo 2^16 |
| `ReadQueue.Ring.Dequeue` | ctr/driver/ctrdrvr-pci.c:2003-2011 | the oldest live entry leaves |
| `ReadQueue.Ring.Flush` | ctr/driver/ctrdrvr-pci.c:1955-1965 | the queue is empty and nothing is missed |
| `ReadProtocol.StepValid` | ctr/driver/ctrdrvr-pci.c:1941-2016 | every step of interrupts, writers, timer callback and reader keeps the joint invariant of queue, semaphore and Timer |
| `ReadProtocol.ReadsFindEntries` | ctr/driver/ctrdrvr-pci.c:1980-2016 | tokens plus the reader's event token never exceed Size outside the flush, so a read past the time-out check finds an entry, unless, since the last read that flushed, a callback began between timeout returning and its result being stored |
| `ReadProtocol.EmptyExitIffTimed` | ctr/driver/ctrdrvr-pci.c:1967-2016 | over all interleavings the empty-queue exit can be taken if and only if the client's Timeout is not zero |
| `ReadProtocol.UntimedNeverRaces` | ctr/driver/ctrdrvr-pci.c:1967-1978 | a client whose Timeout is zero never takes the empty-queue exit in any interleaving |
| `ReadProtocol.RaceFindsNothing` | ctr/driver/ctrdrvr-pci.c:1968-2015 | with that callback the exception is real: a run with no event reaches the empty-queue exit and gives the reader nothing |
| `ReadProtocol.EventsArriveInOrder` | ctr/driver/ctrdrvr-pci.c:2002-2011 | in every interleaving, as long as nothing was overwritten, events reach the reader once each and in order |
| `ReadProtocol.ReadHandsOver` | ctr/driver/ctrdrvr-pci.c:2002-2011 | past the time-out check, with no race, a read hands over the oldest entry neither read nor dropped, and does nothing else |
| `ReadProtocol.FlushEmpties` | ctr/driver/ctrdrvr-pci.c:1954-1965 | a read with the queue turned off starts with an empty queue and no token |
| `ReadProtocol.EventIsRead` | ctr/driver/ctrdrvr-pci.c:1980-2011 | a reader asleep on an empty queue is woken by an event, reads just that, and its time-out is called off |
| `ReadProtocol.TimeOutEndsRead` | ctr/driver/ctrdrvr-pci.c:1990-2000 | if its timer fires instead, it comes back with nothing read and the queue as it was |
| `ReadProtocol.SignalEndsRead` | ctr/driver/ctrdrvr-pci.c:1980-1988 | and with a signal pending likewise, its time-out called off |
| `Timing.CreateLaw` | ctr/driver/ctrdrvr-pci.c:3128-3172 | creation succeeds if and only if the number is new, the table has room, the module exists and a run of Size free slots exists, and it takes the least start; just those slots, which were free, then have the number, class and counter of the object; otherwise nothing changes |
| `Timing.RoomIsFound` | ctr/driver/ctrdrvr-pci.c:3148-3157 | free slots anywhere are enough, the last of the table included |
| `Timing.NoSlotsAsked` | ctr/driver/ctrdrvr-pci.c:3148-3170 | an object of no slots is created if and only if some slot is free, and takes none |
| `Timing.DestroyLaw` | ctr/driver/ctrdrvr-pci.c:3187-3239 | an object is destroyed if and only if some slot is its own and none of them has a client; just its slots are then free and just it is gone from the table; otherwise nothing changes |
| `Timing.ExactlyOneOwner` | ctr/driver/ctrdrvr-pci.c:3148-3168 | a slot is PTIM-owned if and only if it lies in exactly one registered range, so ranges in a module are disjoint |
| `Timing.CreateValid` | ctr/driver/ctrdrvr-pci.c:3143-3170 | creating an object keeps tables well formed and ownership exact |
| `Timing.DestroyValid` | ctr/driver/ctrdrvr-pci.c:3187-3239 | destroying one frees all its slots and its entry, keeping ownership exact |
| `Connections.DisableLaw` | ctr/driver/ctrdrvr-pci.c:994-1031 | the source's bit is cleared exactly when no other client uses it, directly or through a trigger on that counter, and HardClients at that index has no other client; a stray value can only keep it |
| `Connections.DisconnectSlotLaw` | ctr/driver/ctrdrvr-pci.c:1643-1671 | the client leaves the slot and no other; the interrupt of its counter goes if and only if no one else uses it; a CTIM slot is freed if and only if its last client left |
| `Connections.DisconnectHardLaw` | ctr/driver/ctrdrvr-pci.c:1673-1680 | a client of a source leaves it and no other; its interrupt is disabled if and only if no other client is on it, directly or by a trigger on that counter |
| `Connections.DisconnectLaw` | ctr/driver/ctrdrvr-pci.c:1689-1706 | a disconnect takes the client off what it named, every source for the hardware class, and spares the others |
| `Connections.DisconnectAllLaw` | ctr/driver/ctrdrvr-pci.c:1712-1727 | after a close the client is nowhere and the others are spared |
| `Connections.OwnTriggerSilenced` | ctr/driver/ctrdrvr-pci.c:1011-1019 | the caller's own other triggers do not count: a client on two slots of an enabled counter that leaves one of them loses the interrupt, though still connected, if and only if it was alone on that slot, nobody else uses the counter, and HardClients at the slot's number has nobody else |
| `Connections.SilencedExample` | ctr/driver/ctrdrvr-pci.c:1011-1019 | a concrete module on which it does |
| `Connections.ConnectPtimLaw` | ctr/driver/ctrdrvr-pci.c:1507-1522 | a connection reaches every slot of the object and enables every counter of them, or fails and changes nothing |
| `Connections.ConnectCtimLaw` | ctr/driver/ctrdrvr-pci.c:1526-1599 | joins the instance, else makes one in a free slot if the event is known; no memory exactly when no slot is free |
| `Connections.ConnectHardLaw` | ctr/driver/ctrdrvr-pci.c:1603-1624 | exactly the sources named, each enabled; none named is an error |
| `TimingRuns.RunValid` | ctr/driver/ctrdrvr-pci.c:3128-3239 | over every run of proper requests by any clients the tables stay well formed, no free slot has clients, and ownership is exact |
| `TimingRuns.OneOwnerFromInstallation` | ctr/driver/ctrdrvr-pci.c:3128-3239 | from an installed driver with empty tables, after any proper requests, every slot of every module is PTIM-owned if and only if it lies in a registered range, and then in one only |
| `TimingRuns.OthersNeverInterfere` | ctr/driver/ctrdrvr-pci.c:1628-1727 | whatever others do in any order, a client's connections, their slots and its enabled interrupts stay |
| `TimingRuns.ConnectionEnables` | ctr/driver/ctrdrvr-pci.c:1507-1522 | over every run from installation, a connection to an object enables the counter the object was created with |
| `TimingRuns.CloseLeavesAll` | ctr/driver/ctrdrvr-pci.c:1712-1727 | over all modules: after a close the client is nowhere |
| `TimingRuns.DisconnectLeavesOne` | ctr/driver/ctrdrvr-pci.c:1689-1706 | over all modules: a disconnect takes the client off what it named, and touches no other module |
| `TimingRuns.SourcesTaken` | ctr/driver/ctrdrvr-pci.c:1603-1624 | a hardware connection puts the client on every source named and enables it, and touches no other module |
| `TimingRuns.EventTaken` | ctr/driver/ctrdrvr-pci.c:1526-1599 | a CTIM connection to a known event puts the client on a slot of it whose counter is enabled, if the event has a slot or one is free |
| `TimingRuns.ActionKeeps` | ctr/driver/ctrdrvr-pci.c:3000-3055 | on a well-formed table SET_ACTION gives no slot away and changes no owner: its branch for free slots cannot be reached |
| `TimingRuns.FreeSlotClaimed` | ctr/driver/ctrdrvr-pci.c:3000-3055 | what that branch would do to a free slot of another class, which is not well formed |
| `TimingOps.ModuleContext.DisableInterrupts` | ctr/driver/ctrdrvr-pci.c:994-1031 | the in-place routine with its loop over the table |
| `TimingOps.ModuleContext.DisConnectTrigger` | ctr/driver/ctrdrvr-pci.c:1643-1671 | in place, for the trigger classes |
| `TimingOps.ModuleContext.DisConnectSource` | ctr/driver/ctrdrvr-pci.c:1673-1680 | in place, for the hardware class |
| `TimingOps.ModuleContext.DisConnect` | ctr/driver/ctrdrvr-pci.c:1689-1706 | in place |
| `TimingOps.ModuleContext.DisConnectAll` | ctr/driver/ctrdrvr-pci.c:1712-1727 | in place, for one module |
| `TimingOps.ModuleContext.ConnectToPtim` | ctr/driver/ctrdrvr-pci.c:1507-1522 | in place |
| `TimingOps.ModuleContext.ConnectToCtim` | ctr/driver/ctrdrvr-pci.c:1526-1599 | in place |
| `TimingOps.ModuleContext.ConnectToHard` | ctr/driver/ctrdrvr-pci.c:1603-1624 | in place |
| `TimingOps.ModuleContext.FindRun` | ctr/driver/ctrdrvr-pci.c:3148-3157 | the counting loop finds the least run of free slots |
| `TimingOps.ModuleContext.Release` | ctr/driver/ctrdrvr-pci.c:3197-3227 | busy if any of the slots has clients, else all of them are cleared |
| `TimingOps.WorkingArea.CreatePtim` | ctr/driver/ctrdrvr-pci.c:3128-3172 | in place over modules and object table, the counter of the object in every slot |
| `TimingOps.WorkingArea.DestroyPtim` | ctr/driver/ctrdrvr-pci.c:3187-3239 | in place; the last object takes the place of the destroyed one |
| `Packing.AutoShiftLeft` | ctr/driver/ctrdrvr-pci.c:1351-1360 | the value moved to the mask's lowest bit and cut to the mask |
| `Packing.AutoShiftRight` | ctr/driver/ctrdrvr-pci.c:1366-1375 | the field moved down, with the mask shifted as a signed word |
| `Packing.LeftRight` | ctr/driver/ctrdrvr-pci.c:1351-1375 | the two shifts are inverse on the bits under any mask |
| `Packing.RightLeft` | ctr/driver/ctrdrvr-pci.c:1351-1375 | and on every value that fits any mask |
| `Packing.FieldsReadBack` | ctr/driver/ctrdrvr-pci.c:1385-1399 | any number of fields under any pairwise disjoint masks read back |
| `Packing.WordReadBack` | ctr/driver/ctrdrvr-pci.c:1405-1419 | masks that cover the word rebuild it from its fields |
| `Packing.TriggerRoundTrip` | ctr/driver/ctrdrvr-pci.c:1385-1419 | trigger to hardware and back, all but the event number; hardware to trigger and back |
| `Packing.ConfigRoundTrip` | ctr/driver/ctrdrvr-pci.c:1425-1459 | configuration to hardware and back, and hardware to configuration and back |
| `Packing.TriggerToHard` | ctr/driver/ctrdrvr-pci.c:1385-1399 | the assembled word is the disjunction of the shifted fields |
| `Packing.TriggerBits` | ctr/driver/ctrdrvr-pci.c:1385-1399 | which bits of the word each field of a trigger takes |
| `Packing.ConfigToHard` | ctr/driver/ctrdrvr-pci.c:1425-1439 | the same for configurations |
| `Packing.ConfigBits` | ctr/driver/ctrdrvr-pci.c:1425-1439 | which bits each field of a configuration takes |
| `Packing.InPlace` | ctr/driver/ctrdrvr-pci.c:1518-1519 | setting or clearing a field's bits in place changes that field by the same bits and no disjoint field |
| `Packing.BusBitInPlace` | ctr/driver/ctrdrvr-pci.c:1666-1667 | the bus bit set by connects and cleared by disconnects changes nothing else of the configuration |
| `HptdcSpec.CommandLaw` | ctr/driver/ctrdrvr-pci.c:1177-1260 | with parity, or a single register that has bits: Run-Test/Idle to Run-Test/Idle, the instruction register goes through the command and a bit evening its ones, the data register through all fields and, with parity, such a bit; registers of that length end up holding just those bits |
| `HptdcSpec.ReadBackLaw` | ctr/driver/ctrdrvr-pci.c:1219-1247 | on a conforming chip the bits read back are those the data register had captured, then, past its length, the bits sent; every bit above a register's width is zero |
| `HptdcSpec.WorksIffOneField` | ctr/driver/ctrdrvr-pci.c:1224-1257 | without parity, for every chip in any state, all bits go through the data register, nothing else changes and the walk ends in Run-Test/Idle, if and only if exactly one of the registers has bits |
| `HptdcSpec.OnlyOneWithoutParity` | ctr/driver/ctrdrvr-pci.c:1234-1254 | what happens otherwise: with no register that has bits it ends in Pause-DR, and with two the second starts outside Shift-DR; registers without bits send nothing |
| `HptdcSpec.ResetReachesIdle` | ctr/driver/ctrdrvr-pci.c:1151-1171 | the TRST sequence reaches Run-Test/Idle from any state |
| `HptdcOps.Chip.BitTransfer` | ctr/driver/ctrdrvr-pci.c:1127-1145 | three writes: one rising edge, TDO read at its top |
| `HptdcOps.Chip.SendBits` | ctr/driver/ctrdrvr-pci.c:1224-1241 | a field least significant bit first, the TDO bits read back, and the parity of its ones |
| `HptdcOps.Chip.Command` | ctr/driver/ctrdrvr-pci.c:1177-1260 | the whole walk and the read-back registers, which may be the written ones; nothing at all when the module does not answer |
| `Lists.ListAdd` | include/list.h:80-83 | the new node first, the rest as before; only it, the head and the old first node are written |
| `Lists.ListAddTail` | include/list.h:93-96 | the new node last |
| `Lists.ListDel` | include/list.h:117-120 | the sequence without the element; only its neighbours are written, its own pointers stay |
| `Lists.ListDelInit` | include/list.h:126-130 | and the element is an empty list of its own |
| `Lists.ListMove` | include/list.h:137-141 | from one list, or the same one, to the front of another |
| `Lists.ListMoveTail` | include/list.h:148-153 | and to the back |
| `Lists.ListEmpty` | include/list.h:159-162 | true if and only if the sequence is empty |
| `Lists.ListSplice` | include/list.h:164-187 | concatenation, the given elements first |
| `Lists.ListSpliceInit` | include/list.h:196-202 | and the given list is empty |
| `Lists.ListCapacity` | include/list_extra.h:38-49 | ends with the number of elements |
| `Lists.ListIdx` | include/list_extra.h:79-89 | the element at the index, or the head if there is none |
| `Lists.ListFreeAll` | include/list_extra.h:101-111 | every element freed exactly once, in order, none read after it was freed; the list ends empty |
| `Adler.ReducedOnce` | include/adler32.h:73-87 | reducing once at the end of a block is reducing at every byte |
| `Adler.ChecksumMeans` | include/adler32.h:48-61 | from the seed 1, in closed form: the low half is one more than the sum of the bytes, the high half the number of bytes and each byte as often as there are bytes from it on, both modulo 65521 |
| `Adler.NmaxIsSafe` | include/adler32.h:38-40 | no sum exceeds 2^32 - 1 within a block, even from 16-bit halves not reduced modulo 65521 |
| `Adler.NmaxIsLargest` | include/adler32.h:38-40 | for reduced sums 5552 is exactly the largest such block |
| `Adler.ChecksumContinues` | include/adler32.h:48-61 | continuing from a checksum is the checksum of the concatenation, for every seed |
| `Adler.Do16` | include/adler32.h:42-46 | the unrolled sixteen bytes are sixteen plain steps, within 32 bits |
| `Adler.Block` | include/adler32.h:73-87 | one block is the byte-by-byte update |
| `Adler.ZlibAdler32` | include/adler32.h:62-89 | the blocked, unrolled loop is the checksum of sections 2.2 and 8.2 of RFC 1950 for every buffer and 32-bit seed; no buffer gives 1 |
| `Pages.PiecesPartition` | cdcm/cdcmPciDmaLinux.c:53-70 | pieces are nonempty, within their page, adjacent in order, and begin and end with the buffer |
| `Pages.LengthsSum` | cdcm/cdcmPciDmaLinux.c:114-136 | the lengths of the first n pieces reach exactly to the next, and of all to the size |
| `Pages.NonemptyIff` | cdcm/cdcmPciDmaLinux.c:53-70 | for a buffer address not zero: there is a nonempty first piece if and only if the size is at least one |
| `Pages.DmaBuf.Init` | cdcm/cdcmPciDmaLinux.c:53-70 | the fields are the first offset, the last tail and the page count |
| `Pages.DmaBuf.MapUserPages` | cdcm/cdcmPciDmaLinux.c:83-141 | the scatter list has just those pieces up to the first missing page; too few pinned pages is an error with nothing filled |
| `Framing.RoundTrip` | acdx/lib/libamp.c:374-434 | unescaping undoes escaping for every frame |
| `Framing.EscapedIsClean` | acdx/lib/libamp.c:374-402 | no STX, ETX, 0x7B or 0x7D inside, and ESC only introduces one of the five shifted bytes |
| `Framing.PrefixFree` | acdx/lib/libamp.c:374-402 | no escaped frame is a proper prefix of another, and what follows one is determined |
| `Framing.StreamSplitsUniquely` | acdx/lib/libamp.c:374-402 | a concatenation of escaped frames splits in one way |
| `Framing.BufSizeMeans` | acdx/lib/libamp.c:439-451 | the size of any buffer: up to its last byte not zero if it begins with STX and that byte is an ETX behind it, else all of it |
| `Framing.PaddedSize` | acdx/lib/libamp.c:439-451 | the size found for a zero-padded frame is its exact length |
| `Framing.CheckSumMeans` | acdx/lib/libamp.c:455-480 | a checksum is never zero or a delimiter; exactly which sums share one |
| `Framing.CheckSumBits` | acdx/lib/libamp.c:455-480 | bit k of a checksum is one if and only if an odd number of the bytes have bit k, unless those bits make a zero or a delimiter, which is moved |
| `Framing.RequestArrives` | acdx/lib/libamp.c:484-502 | a serialised request has exactly its length and survives escaping |
| `Framing.ReplyArrives` | acdx/lib/libamp.c:569-600 | a reply read into a zeroed buffer parses back field by field and is accepted exactly on its checksum |
| `Framing.ShortReply` | acdx/lib/libamp.c:569-600 | a reply too short for its fields has no payload, and zeros for the fields beyond its end |
| `AmpOps.GetBufSize` | acdx/lib/libamp.c:439-451 | the backward search |
| `AmpOps.CalcCheckSum` | acdx/lib/libamp.c:455-480 | the module number counts in replies only |
| `Framing.EscapedLength` | acdx/lib/libamp.c:374-402 | an escaped frame is longer by exactly the number of its special bytes |
| `AmpOps.Amplifier.EscapeOBuf` | acdx/lib/libamp.c:374-402 | in place through the escape buffer, for every frame that fits it with its escapes; anything not framed is left alone |
| `AmpOps.Amplifier.UnEscapeIBuf` | acdx/lib/libamp.c:406-434 | in place through the escape buffer; an escape byte before the closing one takes that as its operand |
| `AmpOps.Amplifier.Serialize` | acdx/lib/libamp.c:484-502 | header, payload, checksum and ETX, then zeros |
| `AmpOps.Amplifier.PutRequest` | acdx/lib/libamp.c:528-532 | what goes on the line for a request is its escaped frame |

## Left out

- XsvfPlayer.Player.Perform: what the source reads and writes outside its buffers once a cut byte count is used is not
  modelled.
- XsvfPlayer.Player.DoXSDRSIZE: `long` is unbounded; where it has 32 bits, a size of 2^31 bits or more would be negative.
- XsvfPlayer.Player.constructor: the lengths of values that were never read are uninitialised in the source; the model takes
  any length that fits the buffer.
- ShiftingOps.ShiftOnly: a one-hot mask is a bit number, and setting a bit that is still clear is an addition.
- LenVals.LenVal.AddVal: both operands have at least as many bytes in their buffers as the first is long, as all have;
  `RetBit`, `SetBit` and `initLenVal` are not used by the player.
- Retry.Shift: `long` is unbounded, so the growing wait time does not overflow.
- Ports.Port.SetPort: the progress dots, a missing device register and pins other than the three are not modelled.
- SemOps.Semaphore.Up: the unsigned count does not wrap; registration of semaphores by user pointer, allocation failure,
  the return codes of `swait` and `tswait` and the timer table are not part of this model.
- ReadProtocol.ReadsFindEntries: one reader a client, no uninstall; the flush and the pair of filling an entry and
  signalling are two steps each under the driver's lock. A client is opened with a time-out of 2000
  (`ctr/driver/ctrdrvrP.h`, line 49), so one without has set it to zero before its first read; a later SET_TIMEOUT is not
  modelled. Neither is closing and opening again with a callback in flight, nor a timer slot used again giving a second
  callback.
- ReadQueue.Ring.ReadMissed: reading the count and clearing it is one step, though an interrupt may come between the two.
- ReadQueue.Ring.Enqueue: what is copied into an entry is any value.
- TimingRuns.RunValid: a module's update lock and the CTIM object table are not modelled; whether an event is known is a
  parameter of a connection. Object numbers are nonzero, sizes at least one and counters in range, which the source leaves
  to its callers.
- TimingOps.ModuleContext.ConnectToPtim: client masks are sets of client numbers, the parallel arrays of a module are one
  array of slots, and of the hardware only the bus bit of each configuration and the interrupt enable are kept.
- HptdcOps.Chip.Command: fields have at most 32 bits, which `ctr/driver/hptdc.h` (line 55) asks for; an end more than one
  before its start counts as a huge number of bits. In both cases a one is shifted by more than a word has places, which
  C leaves undefined. Two arrays that overlap without being the same are not modelled.
- Packing.TriggerToHard: masks are not zero in the source's calls; a shift by 32 places does not arise.
- Lists.ListAdd: container_of and the iteration macros are not modelled; callers name the sequence a list holds.
- Pages.DmaBuf.Init: addresses do not wrap round; pinning and releasing pages are parameters.
- AmpOps.Amplifier.EscapeOBuf: a frame that does not fit the output buffer with its escapes is written past its end by the
  source, which does not check; that is not modelled.
- Framing.ReplyArrives: the read loop, its retries and the serial port are not modelled.
- Kernel plumbing, register access, EEPROM and waveform code, ioctl tables and debug output.
