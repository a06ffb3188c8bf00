/** Compressed and split scans mean what the plain ones do: XSDRINC is a series of XSDR commands, and
    an XSDRB, XSDRC, XSDRE series is one scan. */
module SeriesLaws {
  import opened Bytes
  import opened Commands
  import opened Errors
  import opened LenVals
  import opened Lines
  import opened PlayerSpec
  import opened Ports
  import opened Retry
  import opened Source
  import opened ScanLaws
  import Hardware
  import LoadLaws
  import Masking
  import Shifting
  import Tap

  // ----- XSDRINC -----

  lemma TakeAfter(data: seq<byte>, pos: nat, m: nat, n: nat)
    requires pos <= |data|
    ensures Take(data, After(data, pos, m), n) == Take(data, pos + m, n)
  {
    var a, b := Take(data, After(data, pos, m), n), Take(data, pos + m, n);
    forall k | 0 <= k < n
      ensures a[k] == b[k]
    {
      assert a[k] == At(data, After(data, pos, m) + k);
      assert b[k] == At(data, pos + m + k);
    }
  }

  lemma AfterAfter(data: seq<byte>, pos: nat, m: nat, n: nat)
    requires pos <= |data|
    ensures After(data, After(data, pos, m), n) == After(data, pos, m + n)
  {
  }

  /** The words still to be shifted once k of them have been. */
  function WordsFrom(words: seq<seq<byte>>, k: nat): seq<seq<byte>>
    requires k <= |words|
  {
    words[k..]
  }

  /** The loop of XSDRINC from its k-th piece on. */
  ghost predicate AtPiece(s: Snap, data: seq<byte>, p: nat, buf: seq<byte>, k: nat)
    requires p <= |data|
  {
    && s.Valid(data) && |buf| == MAX_LEN + 1 && s.Sized()
    && s.tdi.buf == IncBuffer(data, p, buf, s.bytes, s.address.buf, s.dataMask.View(), k)
    && s.pos == After(data, p, k * PieceLen(s.dataMask.View()))
  }

  lemma PieceStep(s: Snap, data: seq<byte>, p: nat, buf: seq<byte>, k: nat)
    requires p <= |data| && AtPiece(s, data, p, buf, k) && PieceLen(s.dataMask.View()) <= MAX_LEN
    ensures AtPiece(NextPiece(s, data), data, p, buf, k + 1)
  {
    hide Masking.NextWord, Take, PieceLen;
    var n := PieceLen(s.dataMask.View());
    TakeAfter(data, p, k * n, n);
    AfterAfter(data, p, k * n, n);
    assert k * n + n == (k + 1) * n;
    assert Load(s.next, data, s.pos, n).View() == Piece(data, p, s.dataMask.View(), k);
  }

  /** What a compared data shift takes from `Retry.Shift`. */
  lemma PlayDRIs(s: Snap, data: seq<byte>, device: History -> bv16)
    requires s.Valid(data) && s.error == NoError && s.Sized()
    ensures var o := Retry.Shift(device, Bench(s.line, s.captured.buf, s.runTest), DrJob(s, true, true, s.endDR, s.maxRepeat));
            var r := PlayDR(s, data, device, true, true, s.endDR, s.runTest, s.maxRepeat);
            && r.line == o.bench.line && r.captured.buf == o.bench.captured && r.error == o.error
            && r == s.(line := r.line, captured := r.captured, error := r.error)
  {
    hide Retry.Shift;
  }

  lemma {:induction false} IncLoopIsSeries(s: Snap, data: seq<byte>, device: History -> bv16, p: nat, buf: seq<byte>, k: nat,
                                           times: nat, job: Job, words: seq<seq<byte>>)
    requires p <= |data| && AtPiece(s, data, p, buf, k) && s.error == NoError
    requires k <= times && PieceLen(s.dataMask.View()) <= MAX_LEN
    requires words == IncWords(data, p, buf, s.bytes, s.address.buf, s.dataMask.View(), times)
    requires |job.v| == s.bytes && DrJob(s, true, true, s.endDR, s.maxRepeat) == job.(v := s.tdi.View())
    ensures var o := Series(device, Bench(s.line, s.captured.buf, s.runTest), job, WordsFrom(words, k + 1));
            var r := IncLoop(s, data, device, times - k);
            r.line == o.bench.line && r.captured.buf == o.bench.captured && r.error == o.error
    decreases times - k
  {
    hide Retry.Shift, IncBuffer, NextPiece, PlayDR, Val.Valid, Job.Valid;
    if k < times {
      PieceStep(s, data, p, buf, k);
      NextPieceKeeps(s, data);
      var t := NextPiece(s, data);
      assert words[k + 1] == t.tdi.View();
      assert WordsFrom(words, k + 1)[0] == words[k + 1] && WordsFrom(words, k + 1)[1..] == WordsFrom(words, k + 2);
      PlayDRIs(t, data, device);
      var u := PlayDR(t, data, device, true, true, t.endDR, t.runTest, t.maxRepeat);
      if u.error == NoError {
        IncLoopIsSeries(u, data, device, p, buf, k + 1, times, job, words);
      }
    }
  }

  lemma NextPieceKeeps(s: Snap, data: seq<byte>)
    requires s.Valid(data) && PieceLen(s.dataMask.View()) <= MAX_LEN
    ensures var r := NextPiece(s, data);
            r == s.(tdi := r.tdi, next := r.next, pos := r.pos) && r.tdi.len == s.tdi.len
  {
  }

  /** The TDI buffer, operand place and words of an XSDRINC command about to be performed. */
  function IncOperands(s: Snap, data: seq<byte>): (r: seq<seq<byte>>)
    requires s.Valid(data) && s.error == NoError && s.Fits()
    ensures |r| > 0 && forall w <- r :: |w| == s.bytes
  {
    var first := LoadTdi(s, data, s.bytes);
    IncWords(data, After(data, first.pos, 1), first.tdi.buf, s.bytes, s.address.buf, s.dataMask.View(), At(data, first.pos))
  }

  lemma SeriesFirst(device: History -> bv16, b: Bench, job: Job, words: seq<seq<byte>>)
    requires b.Valid() && job.Valid() && words != [] && words[0] == job.v && forall w <- words :: |w| == |job.v|
    ensures var o := Retry.Shift(device, b, job);
            Series(device, b, job, words)
            == if o.error != NoError then o else Series(device, o.bench.(runTest := b.runTest), job, WordsFrom(words, 1))
  {
    hide Retry.Shift;
    assert job.(v := words[0]) == job;
  }

  lemma FirstJob(s: Snap, data: seq<byte>)
    requires s.Valid(data) && s.error == NoError && s.Fits()
    ensures var job := DrJob(LoadTdi(s, data, s.bytes), true, true, s.endDR, s.maxRepeat); job.Valid() && |job.v| == s.bytes
  {
    hide Take;
  }

  /** XSDRINC drives exactly the pins, captures exactly the bits and returns exactly the code of its
      words shifted one after another, up to the first that fails. */
  lemma XsdrincIsSeries(s: Snap, data: seq<byte>, device: History -> bv16)
    requires s.Valid(data) && s.error == NoError && s.Fits() && s.dataMask.len <= 255
    ensures var o := Series(device, Bench(s.line, s.captured.buf, s.runTest),
                            DrJob(LoadTdi(s, data, s.bytes), true, true, s.endDR, s.maxRepeat), IncOperands(s, data));
            var r := XSDRINC(s, data, device);
            r.line == o.bench.line && r.captured.buf == o.bench.captured && r.error == o.error
  {
    hide Retry.Shift, IncLoop, PlayDR, Take, Series, Job.Valid;
    var first := LoadTdi(s, data, s.bytes);
    var t := XSDR(s, data, device);
    var p := After(data, first.pos, 1);
    var words := IncOperands(s, data);
    var job := DrJob(first, true, true, s.endDR, s.maxRepeat);
    FirstWord(s, data);
    PlayDRIs(first, data, device);
    FirstJob(s, data);
    SeriesFirst(device, Bench(s.line, s.captured.buf, s.runTest), job, words);
    if t.error == NoError {
      var u := t.(pos := p);
      assert AtPiece(u, data, p, first.tdi.buf, 0);
      IncLoopIsSeries(u, data, device, p, first.tdi.buf, 0, At(data, first.pos), job, words);
    }
  }

  lemma FirstWord(s: Snap, data: seq<byte>)
    requires s.Valid(data) && s.error == NoError && s.Fits()
    ensures IncOperands(s, data)[0] == LoadTdi(s, data, s.bytes).tdi.View()
  {
  }

  /** n is the least number of bytes that hold as many bits as the mask has ones. */
  predicate Holds(m: seq<byte>, n: nat) {
    Masking.Ones(m, 8 * |m|) <= 8 * n < Masking.Ones(m, 8 * |m|) + 8
  }

  /** The k-th n bytes behind the first word and the count. */
  function PieceAt(s: Snap, data: seq<byte>, k: nat, n: nat): seq<byte>
    requires s.pos <= |data| && s.bytes >= 0
  {
    Take(data, After(data, After(data, s.pos, s.bytes), 1) + k * n, n)
  }

  /** The words themselves, when the masks were set for the current size: word k + 1 has the bits of
      the k-th piece where the data mask has its ones, and elsewhere the bits of word k plus the
      address mask modulo 256^len. A piece is the fewest bytes that hold as many bits as the mask has
      ones, and the pieces follow one another behind the count. */
  lemma WordLaw(s: Snap, data: seq<byte>, k: nat, j: nat, n: nat)
    requires s.Valid(data) && s.error == NoError && s.Fits() && s.dataMask.len == s.bytes
    requires k + 1 < |IncOperands(s, data)| && j < 8 * s.bytes
    requires Holds(s.dataMask.View(), n)
    ensures var words, m := IncOperands(s, data), s.dataMask.View();
            var sum := AddBytes(words[k], s.address.buf[..s.bytes], 0);
            var piece := PieceAt(s, data, k, n);
            && Value(sum) == (Value(words[k]) + Value(s.address.buf[..s.bytes])) % Pow256(s.bytes)
            && Masking.TakesBit(words[k + 1], sum, m, piece, j)
  {
    hide Value, BitOf, AddBytes, Masking.NextWord, Masking.TakesBit, Take, Masking.Ones;
    var first := LoadTdi(s, data, s.bytes);
    var p, m := After(data, first.pos, 1), s.dataMask.View();
    assert n == PieceLen(m);
    var buf := IncBuffer(data, p, first.tdi.buf, s.bytes, s.address.buf, m, k);
    Masking.NextWordMeans(buf, s.bytes, s.address.buf, m, Piece(data, p, m, k), j);
  }

  /** A stream of XSDR commands, one per word. */
  function XsdrStream(words: seq<seq<byte>>): seq<byte> {
    if words == [] then [] else [3] + words[0] + XsdrStream(words[1..])
  }

  /** n commands, the first one first. */
  function Forward(s: Snap, data: seq<byte>, device: History -> bv16, n: nat): (r: Snap)
    requires s.Valid(data)
    ensures r.Valid(data)
    decreases n
  {
    if n == 0 then s else Forward(Run(s, data, device), data, device, n - 1)
  }

  lemma {:induction false} ForwardIsRuns(s: Snap, data: seq<byte>, device: History -> bv16, n: nat)
    requires s.Valid(data)
    ensures Forward(s, data, device, n) == Runs(s, data, device, n)
    decreases n
  {
    hide Run;
    if n > 0 {
      ForwardIsRuns(Run(s, data, device), data, device, n - 1);
      RunsOfRun(s, data, device, n - 1);
    }
  }

  lemma {:induction false} RunsOfRun(s: Snap, data: seq<byte>, device: History -> bv16, n: nat)
    requires s.Valid(data)
    ensures Runs(Run(s, data, device), data, device, n) == Run(Runs(s, data, device, n), data, device)
  {
    hide Run;
    if n > 0 {
      RunsOfRun(s, data, device, n - 1);
    }
  }

  lemma {:induction false} StoppedForward(s: Snap, data: seq<byte>, device: History -> bv16, n: nat)
    requires s.Valid(data) && !s.Running()
    ensures Forward(s, data, device, n) == s
  {
    hide Perform;
    if n > 0 {
      StoppedForward(s, data, device, n - 1);
    }
  }

  lemma TakeIs(data: seq<byte>, pos: nat, part: seq<byte>, rest: seq<byte>)
    requires pos <= |data| && data[pos..] == part + rest
    ensures pos + |part| <= |data| && Take(data, pos, |part|) == part && data[pos + |part|..] == rest
  {
    var t := Take(data, pos, |part|);
    forall k | 0 <= k < |part|
      ensures t[k] == part[k]
    {
      assert t[k] == At(data, pos + k) == data[pos..][k];
    }
    assert data[pos + |part|..] == data[pos..][|part|..];
  }

  /** One XSDR command of such a stream. */
  lemma OneXsdr(s: Snap, data: seq<byte>, device: History -> bv16, word: seq<byte>, rest: seq<byte>)
    requires s.Valid(data) && s.Running() && s.Fits() && |word| == s.bytes && data[s.pos..] == [3] + word + rest
    ensures var r := Run(s, data, device);
            var job := DrJob(s, true, true, s.endDR, s.maxRepeat).(v := word);
            var o := Retry.Shift(device, Bench(s.line, s.captured.buf, s.runTest), job);
            && r.line == o.bench.line && r.captured.buf == o.bench.captured && r.error == o.error
            && r == s.(command := 3, count := s.count + 1, line := r.line, captured := r.captured, error := r.error,
                       tdi := r.tdi, pos := r.pos)
            && data[r.pos..] == rest
  {
    hide Retry.Shift, Val.Valid, PlayDR;
    assert [3] + word + rest == [3] + (word + rest);
    TakeIs(data, s.pos, [3], word + rest);
    assert Take(data, s.pos, 1)[0] == 3;
    TakeIs(data, s.pos + 1, word, rest);
    var t := Fetched(s, data);
    var u := LoadTdi(t, data, s.bytes);
    PlayDRIs(u, data, device);
  }

  lemma {:induction false} XsdrStreamIsSeries(s: Snap, data: seq<byte>, device: History -> bv16, words: seq<seq<byte>>,
                                              rest: seq<byte>, job: Job)
    requires s.Valid(data) && s.Running() && s.Fits() && (forall w <- words :: |w| == s.bytes)
    requires data[s.pos..] == XsdrStream(words) + rest
    requires job.Valid() && |job.v| == s.bytes && job == DrJob(s, true, true, s.endDR, s.maxRepeat).(v := job.v)
    ensures var o := Series(device, Bench(s.line, s.captured.buf, s.runTest), job, words);
            var r := Forward(s, data, device, |words|);
            r.line == o.bench.line && r.captured.buf == o.bench.captured && r.error == o.error
    decreases |words|
  {
    hide Retry.Shift, Run;
    if words != [] {
      OneXsdr(s, data, device, words[0], XsdrStream(words[1..]) + rest);
      var t := Run(s, data, device);
      if t.error == NoError {
        XsdrStreamIsSeries(t, data, device, words[1..], rest, job);
      } else {
        StoppedForward(t, data, device, |words| - 1);
      }
    }
  }

  /** The compression law: from the same player state, the XSDRINC command of one stream and the XSDR
      commands of another that spell out its words leave the same pin history, the same captured bits
      and the same error code. */
  lemma CompressionLaw(s: Snap, data: seq<byte>, s': Snap, data': seq<byte>, device: History -> bv16, rest: seq<byte>)
    requires s.Valid(data) && s'.Valid(data') && s.Running() && s.Fits() && s.dataMask.len <= 255
    requires s' == s.(pos := s'.pos, tdi := s'.tdi)
    requires data'[s'.pos..] == XsdrStream(IncOperands(s, data)) + rest
    ensures var r := XSDRINC(s, data, device);
            var r' := Runs(s', data', device, |IncOperands(s, data)|);
            r.line == r'.line && r.captured.buf == r'.captured.buf && r.error == r'.error
  {
    hide Retry.Shift, XSDRINC, XsdrStream, Run;
    var words := IncOperands(s, data);
    var job := DrJob(LoadTdi(s, data, s.bytes), true, true, s.endDR, s.maxRepeat);
    XsdrincIsSeries(s, data, device);
    XsdrStreamIsSeries(s', data', device, words, rest, job);
    ForwardIsRuns(s', data', device, |words|);
  }

  // ----- XSDRB, XSDRC, XSDRE -----

  /** One shift of a split scan: the begin and continue forms stay in Shift-DR, the last goes on to
      the end state; nothing is compared and there is no wait. */
  function PartJob(v: seq<byte>, n: nat, end: nat): Job {
    Job(Tap.SHIFTDR, v, n, false, Ignore, end, 0)
  }

  /** The parts of a split scan, the last of which ends the shift. */
  function SplitScan(device: History -> bv16, l: Line, parts: seq<(seq<byte>, nat)>, end: nat): (r: Line)
    requires l.tap <= Tap.UPDATEIR && (end == Tap.RUNTEST || end == Tap.PAUSEDR)
    requires forall p <- parts :: p.1 <= 8 * |p.0| && |p.0| <= MAX_LEN
    ensures r.tap <= Tap.UPDATEIR
    decreases |parts|
  {
    if parts == [] then l
    else
      var next := if |parts| == 1 then end else Tap.SHIFTDR;
      var o := Retry.Shift(device, Bench(l, NoBuffer(), 0), PartJob(parts[0].0, parts[0].1, next));
      SplitScan(device, o.bench.line, parts[1..], end)
  }

  function Flatten(parts: seq<(seq<byte>, nat)>): seq<bool>
    requires forall p <- parts :: p.1 <= 8 * |p.0|
  {
    if parts == [] then [] else Bits(parts[0].0, parts[0].1) + Flatten(parts[1..])
  }

  lemma OnePart(device: History -> bv16, l: Line, v: seq<byte>, n: nat, end: nat)
    requires l.tap <= Tap.UPDATEIR && 0 < n <= 8 * |v| && |v| <= MAX_LEN
    requires end == Tap.SHIFTDR || end == Tap.RUNTEST || end == Tap.PAUSEDR
    ensures Retry.Shift(device, Bench(l, NoBuffer(), 0), PartJob(v, n, end)).bench.line
            == var at := ShiftLine(Goto(l, Tap.SHIFTDR), Bits(v, n), end != Tap.SHIFTDR);
               if end == Tap.SHIFTDR then at else Goto(at, end)
  {
    hide Goto, Shifting.Shift, Bits;
  }

  /** A split scan drives the very pins of one scan of the concatenated bits: one way into Shift-DR,
      the bits, and one way out, with no capture or update in between. */
  lemma {:induction false} SplitScanIsOneScan(device: History -> bv16, l: Line, parts: seq<(seq<byte>, nat)>, end: nat)
    requires l.tap <= Tap.UPDATEIR && (end == Tap.RUNTEST || end == Tap.PAUSEDR) && parts != []
    requires forall p <- parts :: 0 < p.1 <= 8 * |p.0| && |p.0| <= MAX_LEN
    ensures SplitScan(device, l, parts, end) == Goto(ShiftLine(Goto(l, Tap.SHIFTDR), Flatten(parts), true), end)
    decreases |parts|
  {
    hide Goto, Shifting.Shift, Bits, Retry.Shift;
    var (v, n) := parts[0];
    var here := Goto(l, Tap.SHIFTDR);
    if |parts| == 1 {
      OnePart(device, l, v, n, end);
      assert Flatten(parts) == Bits(v, n) + [] == Bits(v, n);
    } else {
      OnePart(device, l, v, n, Tap.SHIFTDR);
      var at := ShiftLine(here, Bits(v, n), false);
      GoingNowhere(l, at);
      SplitScanIsOneScan(device, at, parts[1..], end);
      FlattenNonempty(parts[1..]);
      Shifting.ShiftSplit(here.wire, Bits(v, n), Flatten(parts[1..]), true);
    }
  }

  lemma GoingNowhere(l: Line, at: Line)
    requires l.tap <= Tap.UPDATEIR && at.tap == Goto(l, Tap.SHIFTDR).tap
    ensures at.tap == Tap.SHIFTDR && Goto(at, Tap.SHIFTDR) == at
  {
  }

  lemma FlattenNonempty(parts: seq<(seq<byte>, nat)>)
    requires parts != [] && forall p <- parts :: 0 < p.1 <= 8 * |p.0|
    ensures Flatten(parts) != []
  {
    assert |Bits(parts[0].0, parts[0].1)| > 0;
  }

  /** XSDRB, XSDRC and XSDRE perform exactly such parts. */
  lemma SplitCommandIsPart(s: Snap, data: seq<byte>, device: History -> bv16, last: bool)
    requires s.Valid(data) && s.error == NoError && s.Fits()
    ensures var r := XSDRBCE(s, data, device, last);
            var v, end := Take(data, s.pos, s.bytes), if last then s.endDR else Tap.SHIFTDR;
            && r.line == Retry.Shift(device, Bench(s.line, NoBuffer(), 0), PartJob(v, s.bits, end)).bench.line
            && r.error == NoError
  {
    hide Goto, Shifting.Shift, Bits;
  }

  /** A split scan on the stream: XSDRB first, XSDRE last, XSDRC in between. */
  function SplitStream(words: seq<seq<byte>>, first: bool): seq<byte>
    requires words != []
  {
    [if |words| == 1 then 14 else if first then 12 else 13] + words[0]
    + if |words| == 1 then [] else SplitStream(words[1..], false)
  }

  /** The words of a split scan as its parts, each of n bits. */
  function PartsOf(words: seq<seq<byte>>, n: nat): (r: seq<(seq<byte>, nat)>)
    ensures |r| == |words| && forall i :: 0 <= i < |r| ==> r[i] == (words[i], n)
  {
    seq(|words|, i requires 0 <= i < |words| => (words[i], n))
  }

  lemma PartsNext(words: seq<seq<byte>>, n: nat)
    requires words != []
    ensures PartsOf(words, n)[0] == (words[0], n) && PartsOf(words, n)[1..] == PartsOf(words[1..], n)
  {
  }

  /** One command of such a stream. */
  lemma OneSplit(s: Snap, data: seq<byte>, device: History -> bv16, c: byte, word: seq<byte>, rest: seq<byte>)
    requires s.Valid(data) && s.Running() && s.Fits() && |word| == s.bytes && data[s.pos..] == [c] + word + rest && 12 <= c <= 14
    ensures var r := Run(s, data, device);
            var end := if c == 14 then s.endDR else Tap.SHIFTDR;
            && r == s.(command := c, count := s.count + 1, line := r.line, tdi := r.tdi, pos := r.pos)
            && r.line == Retry.Shift(device, Bench(s.line, NoBuffer(), 0), PartJob(word, s.bits, end)).bench.line
            && data[r.pos..] == rest
  {
    hide Retry.Shift, Val.Valid, XSDRBCE;
    assert [c] + word + rest == [c] + (word + rest);
    TakeIs(data, s.pos, [c], word + rest);
    assert Take(data, s.pos, 1)[0] == c;
    TakeIs(data, s.pos + 1, word, rest);
    var t := Fetched(s, data);
    SplitCommandIsPart(t, data, device, c == 14);
    SplitCommandKeeps(t, data, device, c == 14);
  }

  lemma SplitCommandKeeps(s: Snap, data: seq<byte>, device: History -> bv16, last: bool)
    requires s.Valid(data) && s.error == NoError && s.Fits()
    ensures var r := XSDRBCE(s, data, device, last);
            r == s.(line := r.line, tdi := r.tdi, pos := r.pos, error := r.error) && r.pos == After(data, s.pos, s.bytes)
  {
    hide Retry.Shift, Load;
  }

  /** What is left of the stream after its first command. */
  function SplitRest(words: seq<seq<byte>>, rest: seq<byte>): seq<byte>
    requires words != []
  {
    if |words| == 1 then rest else SplitStream(words[1..], false) + rest
  }

  lemma SplitStep(s: Snap, data: seq<byte>, device: History -> bv16, words: seq<seq<byte>>, rest: seq<byte>, first: bool)
    requires s.Valid(data) && s.Running() && s.Fits() && words != [] && |words[0]| == s.bytes
    requires data[s.pos..] == SplitStream(words, first) + rest
    ensures var t := Run(s, data, device);
            var end := if |words| == 1 then s.endDR else Tap.SHIFTDR;
            && t.line == Retry.Shift(device, Bench(s.line, NoBuffer(), 0), PartJob(words[0], s.bits, end)).bench.line
            && t.Running() && t.Fits() && t.bits == s.bits && t.bytes == s.bytes && t.endDR == s.endDR
            && data[t.pos..] == SplitRest(words, rest)
  {
    hide Retry.Shift, Run, Snap.Valid, PartJob, SplitStream, SplitRest;
    var c: byte := if |words| == 1 then 14 else if first then 12 else 13;
    SplitAhead(words, rest, first);
    OneSplit(s, data, device, c, words[0], SplitRest(words, rest));
  }

  lemma SplitAhead(words: seq<seq<byte>>, rest: seq<byte>, first: bool)
    requires words != []
    ensures var c: byte := if |words| == 1 then 14 else if first then 12 else 13;
            SplitStream(words, first) + rest == [c] + words[0] + SplitRest(words, rest)
  {
  }

  lemma {:induction false} SplitStreamIsParts(s: Snap, data: seq<byte>, device: History -> bv16, words: seq<seq<byte>>,
                                              rest: seq<byte>, first: bool)
    requires s.Valid(data) && s.Running() && s.Fits() && words != [] && (forall w <- words :: |w| == s.bytes)
    requires data[s.pos..] == SplitStream(words, first) + rest
    ensures var r := Forward(s, data, device, |words|);
            && r.line == SplitScan(device, s.line, PartsOf(words, s.bits), s.endDR) && r.Running() && data[r.pos..] == rest
    decreases |words|
  {
    hide Retry.Shift, Run, SplitStream, PartJob;
    PartsNext(words, s.bits);
    SplitStep(s, data, device, words, rest, first);
    var t := Run(s, data, device);
    if |words| == 1 {
      NoMore(t, data, device);
    } else {
      SplitStreamIsParts(t, data, device, words[1..], rest, false);
    }
  }

  lemma NoMore(t: Snap, data: seq<byte>, device: History -> bv16)
    requires t.Valid(data)
    ensures Forward(t, data, device, 0) == t
  {
  }

  /** One way in, the bits, one way out: through a register of just that many bits they are what it holds. */
  lemma OneScanHolds(core: Hardware.Core, h0: Hardware.Hw, l: Line, bits: seq<bool>, end: nat)
    requires InStep(core, h0, l) && bits != [] && (end == Tap.RUNTEST || end == Tap.PAUSEDR)
    requires Hardware.HasLength(core, h0, false, |bits|)
    ensures Hardware.Run(core, h0, Goto(ShiftLine(Goto(l, Tap.SHIFTDR), bits, true), end).wire.log).dr == bits
  {
    hide Goto, Shifting.Shift, Hardware.HasLength, Hardware.Through, Hardware.Run;
    var here := Goto(l, Tap.SHIFTDR);
    GotoInStep(core, h0, l, Tap.SHIFTDR);
    var h := Hardware.Run(core, h0, here.wire.log);
    ShiftRuns(core, h0, here.wire, bits, true);
    Hardware.LengthKept(core, h0, here.wire.log, false, |bits|);
    Hardware.ThroughFull(h.dr, bits);
    ShiftInStep(core, h0, here, bits, true);
    LoadLaws.LeavingKeeps(core, h0, ShiftLine(here, bits, true), end, 0);
  }

  /** The split-scan law: after an XSDRB, any number of XSDRC and an XSDRE on the stream, the player has
      driven the very pins of one scan of all their bits, is still running behind them, and a register of
      that length holds just those bits. */
  lemma SplitScanLaw(s: Snap, data: seq<byte>, device: History -> bv16, words: seq<seq<byte>>, rest: seq<byte>,
                     core: Hardware.Core, h0: Hardware.Hw)
    requires s.Valid(data) && s.Running() && s.Fits() && s.bits > 0 && words != [] && (forall w <- words :: |w| == s.bytes)
    requires data[s.pos..] == SplitStream(words, true) + rest
    ensures var r := Runs(s, data, device, |words|);
            var bits := Flatten(PartsOf(words, s.bits));
            && r.line == Goto(ShiftLine(Goto(s.line, Tap.SHIFTDR), bits, true), s.endDR)
            && r.Running() && data[r.pos..] == rest
            && (InStep(core, h0, s.line) && Hardware.HasLength(core, h0, false, |bits|) ==>
                  Hardware.Run(core, h0, r.line.wire.log).dr == bits)
  {
    hide Retry.Shift, Run, InStep, Hardware.HasLength, Hardware.Run, Goto, SplitStream, SplitScan, Flatten, Forward, Runs;
    var parts := PartsOf(words, s.bits);
    SplitStreamIsParts(s, data, device, words, rest, true);
    ForwardIsRuns(s, data, device, |words|);
    SplitScanIsOneScan(device, s.line, parts, s.endDR);
    FlattenNonempty(parts);
    if InStep(core, h0, s.line) && Hardware.HasLength(core, h0, false, |Flatten(parts)|) {
      OneScanHolds(core, h0, s.line, Flatten(parts), s.endDR);
    }
  }
}
