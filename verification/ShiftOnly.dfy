/** `xsvfShiftOnly` (jtag/micro.c:710-772): the bits of a value driven on TDI one clock each,
    least significant first, and TDO sampled while TCK is low. */
module Shifting {
  import opened Bytes
  import opened Ports

  /** One bit; `leave` raises TMS first, so that the edge leaves the shift state. */
  function BitSetup(w: Wire, bit: bool, leave: bool): Wire {
    Set(Set(if leave then Set(w, TMS, true) else w, TDI, bit), TCK, false)
  }

  function ShiftBit(w: Wire, bit: bool, leave: bool): Wire {
    Set(BitSetup(w, bit, leave), TCK, true)
  }

  function Shift(w: Wire, bits: seq<bool>, exit: bool): Wire {
    if bits == [] then w
    else
      var n := |bits| - 1;
      ShiftBit(Shift(w, bits[..n], false), bits[n], exit)
  }

  /** The TDO samples of a shift: one per bit, taken with TCK low. */
  function Samples(device: History -> bv16, w: Wire, bits: seq<bool>, exit: bool): (s: seq<bool>)
    ensures |s| == |bits|
  {
    if bits == [] then []
    else
      var n := |bits| - 1;
      Samples(device, w, bits[..n], false) + [Tdo(device, BitSetup(Shift(w, bits[..n], false), bits[n], exit).log)]
  }

  /** What a capture buffer that held `was` holds after the samples are stored in a value of `len`
      bytes: the samples fill it from its last byte upwards, the unused top bits of the last byte
      filled are zero, and everything else keeps what it had. */
  function Captured(was: seq<byte>, len: nat, samples: seq<bool>): (r: seq<byte>)
    requires len <= |was|
    ensures |r| == |was|
  {
    seq<byte>(|was|, j requires 0 <= j < |was| =>
      if j < len && 8 * (len - 1 - j) < |samples| then PackByte(Chunk(samples, len - 1 - j)) else was[j])
  }

  /** The q-th group of eight samples; the last may be short. */
  function Chunk(samples: seq<bool>, q: nat): (bits: seq<bool>)
    ensures |bits| <= 8
  {
    if |samples| <= 8 * q then []
    else if |samples| <= 8 * q + 8 then samples[8 * q..]
    else samples[8 * q..8 * q + 8]
  }

  /** Bit k of the captured value is the k-th sample; the bits above, up to the byte boundary, are zero. */
  lemma CapturedBits(was: seq<byte>, len: nat, samples: seq<bool>, k: nat)
    requires |samples| <= 8 * len <= 8 * |was| && k / 8 * 8 < |samples|
    ensures BitOf(Captured(was, len, samples)[..len], k) == (k < |samples| && samples[k])
  {
    hide Bit, Pack;
    var q := k / 8;
    assert Captured(was, len, samples)[..len][len - 1 - q] == PackByte(Chunk(samples, q));
    PackBits(Chunk(samples, q), k % 8);
  }

  /** Split scans: shifting a and then b drives the very pins that one shift of a + b drives. */
  lemma {:induction false} ShiftSplit(w: Wire, a: seq<bool>, b: seq<bool>, exit: bool)
    requires b != []
    ensures Shift(Shift(w, a, false), b, exit) == Shift(w, a + b, exit)
    decreases |b|
  {
    var n := |b| - 1;
    assert (a + b)[..|a| + n] == a + b[..n];
    if n == 0 {
      assert a + b[..n] == a;
    } else {
      ShiftSplit(w, a, b[..n], false);
    }
  }

  /** And it samples the same TDO bits. */
  lemma {:induction false} SamplesSplit(device: History -> bv16, w: Wire, a: seq<bool>, b: seq<bool>, exit: bool)
    requires b != []
    ensures Samples(device, w, a + b, exit) == Samples(device, w, a, false) + Samples(device, Shift(w, a, false), b, exit)
    decreases |b|
  {
    var n := |b| - 1;
    assert (a + b)[..|a| + n] == a + b[..n];
    if n == 0 {
      assert a + b[..n] == a;
    } else {
      ShiftSplit(w, a, b[..n], false);
      SamplesSplit(device, w, a, b[..n], false);
    }
  }
}

module ShiftingOps {
  import opened Bytes
  import opened LenVals
  import opened Ports
  import opened Shifting

  /** b shifted right i times. */
  function Shr(b: nat, i: nat): nat {
    if i == 0 then b else Shr(b, i - 1) / 2
  }

  lemma {:induction false} ShrBit(b: nat, i: nat, j: nat)
    ensures Bit(Shr(b, i), j) == Bit(b, i + j)
    decreases i
  {
    if i > 0 {
      ShrBit(b, i - 1, j + 1);
    }
  }

  /** The low n bits of a byte. */
  function LowBits(b: byte, n: nat): (bits: seq<bool>)
    ensures |bits| == n
  {
    seq(n, i requires 0 <= i < n => Bit(b, i))
  }

  /** One bit: TMS up if it is the last of an exiting scan, TDI, TCK low, TDO, TCK high. */
  method ClockBit(port: Port, tdi: bool, leave: bool, capture: bool) returns (tdo: bool)
    requires port.Valid()
    modifies port
    ensures port.Valid() && port.wire == ShiftBit(old(port.wire), tdi, leave)
    ensures capture ==> tdo == Tdo(port.device, BitSetup(old(port.wire), tdi, leave).log)
  {
    if leave {
      port.SetPort(TMS, true);
    }
    port.SetPort(TDI, tdi);
    port.SetPort(TCK, false);
    tdo := false;
    if capture {
      tdo := port.ReadTDOBit();
    }
    port.SetPort(TCK, true);
  }

  /** The loop over the bits of one byte; `exit` holds when the scan's last bit is among them. */
  method ShiftByte(port: Port, tdiByte: byte, count: nat, exit: bool, capture: bool) returns (tdoByte: byte)
    requires port.Valid() && 0 < count <= 8
    modifies port
    ensures port.Valid() && port.wire == Shift(old(port.wire), LowBits(tdiByte, count), exit)
    ensures capture ==> tdoByte == PackByte(Samples(port.device, old(port.wire), LowBits(tdiByte, count), exit))
  {
    hide ShiftBit, BitSetup;
    var tdi: nat, tdo: nat := tdiByte, 0;
    ghost var w, bits := port.wire, LowBits(tdiByte, count);
    for i := 0 to count
      invariant port.Valid() && tdi == Shr(tdiByte, i)
      invariant port.wire == Shift(w, bits[..i], exit && i == count)
      invariant capture ==> tdo == Pack(Samples(port.device, w, bits[..i], exit && i == count))
    {
      ShrBit(tdiByte, i, 0);
      assert bits[..i + 1][..i] == bits[..i];
      ghost var sampled := Samples(port.device, w, bits[..i], false);
      var tdoBit := ClockBit(port, tdi % 2 == 1, exit && i == count - 1, capture);
      assert capture ==> Samples(port.device, w, bits[..i + 1], exit && i == count - 1) == sampled + [tdoBit];
      PackSnoc(sampled, tdoBit);
      tdi := tdi / 2;
      if capture {
        tdo := tdo + Digit(tdoBit) * Pow2(i);  // `|= bit << i`: bit i is still clear
      }
    }
    assert bits[..count] == bits;
    assert capture ==> tdo == PackByte(Samples(port.device, w, bits, exit));
    tdoByte := if capture then tdo else 0;
  }

  /** The history after the first d bits of a scan of the low n bits of v. */
  function Sofar(w: Wire, v: seq<byte>, n: nat, exit: bool, d: nat): Wire
    requires d <= n <= 8 * |v|
  {
    Shift(w, Bits(v, n)[..d], exit && d == n)
  }

  function Min8(n: nat): nat {
    if n < 8 then n else 8
  }

  /** One byte further, from d bits done to e: the history and the samples both extend by that
      byte's low bits. */
  lemma NextByte(device: History -> bv16, w: Wire, v: seq<byte>, n: nat, exit: bool, at: nat,
                 d: nat, e: nat, part: seq<bool>, last: bool)
    requires n <= 8 * |v| && at < |v| && d == 8 * (|v| - 1 - at) < n && e == d + Min8(n - d)
    requires part == LowBits(v[at], e - d) && last == (exit && e == n)
    ensures Sofar(w, v, n, exit, e) == Shift(Sofar(w, v, n, exit, d), part, last)
    ensures Chunk(Samples(device, w, Bits(v, n), exit), |v| - 1 - at) == Samples(device, Sofar(w, v, n, exit, d), part, last)
  {
    hide Shift, Samples;
    var bits := Bits(v, n);
    assert bits[..e] == bits[..d] + part;
    ShiftSplit(w, bits[..d], part, last);
    SamplesSplit(device, w, bits[..d], part, last);
    if e < n {
      assert bits == bits[..e] + bits[e..];
      SamplesSplit(device, w, bits[..e], bits[e..], exit);
    } else {
      assert bits[..e] == bits;
    }
  }

  /** What a call of ShiftOnly is asked to do, and what it found. */
  datatype Scan = Scan(device: History -> bv16, start: Wire, v: seq<byte>, n: nat, exit: bool, was: seq<byte>) {
    ghost predicate Valid() {
      n <= 8 * |v| && |v| <= MAX_LEN && |was| == MAX_LEN + 1
    }

    function Captures(): seq<bool>
      requires n <= 8 * |v|
    {
      Samples(device, start, Bits(v, n), exit)
    }
  }

  /** The capture buffer part-way: every byte from `at` to the end of the value is stored. */
  ghost predicate Stored(captured: LenVal?, s: Scan, at: nat)
    requires s.Valid() && at <= |s.v|
    reads captured, if captured == null then {} else {captured.val}
  {
    captured != null ==>
      && captured.Valid() && captured.len == |s.v|
      && forall j :: 0 <= j < |s.was| ==>
           captured.val[j] == if at <= j < |s.v| then PackByte(Chunk(s.Captures(), |s.v| - 1 - j)) else s.was[j]
  }

  /** The byte loop with `left` bits to go, the bytes from `at` on having been used. */
  ghost predicate Midway(port: Port, tdi: LenVal, captured: LenVal?, s: Scan, left: nat, at: nat)
    reads port, tdi, tdi.val, captured, if captured == null then {} else {captured.val}
  {
    && s.Valid() && at <= |s.v| && left <= s.n
    && (left > 0 ==> s.n - left == 8 * (|s.v| - at))
    && s.n - left <= 8 * (|s.v| - at) < s.n - left + 8
    && port.Valid() && port.device == s.device && port.wire == Sofar(s.start, s.v, s.n, s.exit, s.n - left)
    && tdi.Valid() && tdi.View() == s.v && (captured != null ==> captured.val != tdi.val)
    && Stored(captured, s, at)
  }

  /** The body of the byte loop: shift one byte of the value and store what it captured. */
  method StoreByte(port: Port, tdi: LenVal, captured: LenVal?, left: nat, at: nat, exitShift: bool, ghost s: Scan)
    returns (rest: nat)
    requires Midway(port, tdi, captured, s, left, at + 1) && left > 0 && exitShift == s.exit
    modifies port, if captured == null then {} else {captured.val}
    ensures rest < left && Midway(port, tdi, captured, s, rest, at)
  {
    hide Shift, Samples, PackByte, LowBits, Chunk, Sofar, Bits, Stored;
    rest := left - Min8(left);
    var count, last := Min8(left), exitShift && left <= 8;
    ghost var d, e, part := s.n - left, s.n - rest, LowBits(tdi.val[at], count);
    NextByte(s.device, s.start, s.v, s.n, s.exit, at, d, e, part, last);
    var tdoByte := ShiftByte(port, tdi.val[at], count, last, captured != null);
    assert port.wire == Shift(Sofar(s.start, s.v, s.n, s.exit, d), part, last);
    assert port.wire == Sofar(s.start, s.v, s.n, s.exit, e);
    Save(captured, at, tdoByte, s);
  }

  method Save(captured: LenVal?, at: nat, tdoByte: byte, ghost s: Scan)
    requires s.Valid() && at < |s.v| && Stored(captured, s, at + 1)
    requires captured != null ==> tdoByte == PackByte(Chunk(s.Captures(), |s.v| - 1 - at))
    modifies if captured == null then {} else {captured.val}
    ensures Stored(captured, s, at)
  {
    hide PackByte, Chunk, Scan.Captures;
    if captured != null {
      captured.val[at] := tdoByte;
    }
  }

  method ShiftOnly(port: Port, numBits: nat, tdi: LenVal, captured: LenVal?, exitShift: bool)
    requires port.Valid() && tdi.Valid() && numBits <= 8 * tdi.len
    requires captured != null ==> captured.Valid() && captured != tdi && captured.val != tdi.val
    modifies port, captured, if captured == null then {} else {captured.val}
    ensures port.Valid()
    ensures port.wire == Shift(old(port.wire), Bits(tdi.View(), numBits), exitShift)
    ensures captured != null ==> captured.Valid() && captured.len == tdi.len
    ensures captured != null ==> captured.val[..] == Captured(old(captured.val[..]), tdi.len,
              Samples(port.device, old(port.wire), Bits(tdi.View(), numBits), exitShift))
  {
    ghost var was := if captured == null then seq(MAX_LEN + 1, _ => 0) else captured.val[..];
    ghost var s := Scan(port.device, port.wire, tdi.View(), numBits, exitShift, was);
    if captured != null {
      captured.len := tdi.len;
    }
    var left, at := numBits, tdi.len;
    assert Midway(port, tdi, captured, s, left, at);
    hide Midway;
    while left > 0
      invariant 0 <= left && 0 <= at && Midway(port, tdi, captured, s, left, at)
    {
      AtPositive(port, tdi, captured, s, left, at);
      at := at - 1;
      left := StoreByte(port, tdi, captured, left, at, exitShift, s);
    }
    Finished(port, tdi, captured, s, at);
  }

  lemma AtPositive(port: Port, tdi: LenVal, captured: LenVal?, s: Scan, left: nat, at: nat)
    requires Midway(port, tdi, captured, s, left, at) && left > 0
    ensures at > 0
  {
  }

  lemma Finished(port: Port, tdi: LenVal, captured: LenVal?, s: Scan, at: nat)
    requires Midway(port, tdi, captured, s, 0, at)
    ensures port.Valid() && tdi.Valid() && tdi.View() == s.v
    ensures port.wire == Shift(s.start, Bits(s.v, s.n), s.exit)
    ensures captured != null ==> captured.Valid() && captured.len == |s.v|
    ensures captured != null ==> captured.val[..] == Captured(s.was, |s.v|, s.Captures())
  {
    hide PackByte;
    assert Bits(s.v, s.n)[..s.n] == Bits(s.v, s.n);
  }
}
