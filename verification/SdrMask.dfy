/** `xsvfDoSDRMasking` (jtag/micro.c:970-1032): the next word of a compressed series. */
module Masking {
  import opened Bytes
  import opened ShiftingOps

  /** How many of the k low bits of the mask are set. */
  function Ones(m: seq<byte>, k: nat): (c: nat)
    requires k <= 8 * |m|
    ensures c <= k
  {
    if k == 0 then 0 else Ones(m, k - 1) + Digit(BitOf(m, k - 1))
  }

  lemma {:induction false} OnesMonotone(m: seq<byte>, j: nat, k: nat)
    requires j <= k <= 8 * |m|
    ensures Ones(m, j) <= Ones(m, k)
  {
    if j < k {
      OnesMonotone(m, j, k - 1);
    }
  }

  lemma OnesNext(m: seq<byte>, j: nat)
    requires j < 8 * |m|
    ensures BitOf(m, j) ==> Ones(m, j) < Ones(m, 8 * |m|)
  {
    OnesMonotone(m, j + 1, 8 * |m|);
  }

  /** Bit j of a word r made from w: where the mask has a one, the bit of the data that is numbered as that one
      is among the ones; elsewhere the bit of w. */
  predicate TakesBit(r: seq<byte>, w: seq<byte>, m: seq<byte>, d: seq<byte>, j: nat)
    requires |r| == |w| == |m| && j < 8 * |m|
  {
    if BitOf(m, j) then Ones(m, j) < 8 * |d| && BitOf(r, j) == BitOf(d, Ones(m, j)) else BitOf(r, j) == BitOf(w, j)
  }

  /** Bit k of the masked word: where the mask has its j-th one, the j-th bit of the data;
      elsewhere the word's own bit. */
  function ScatterBit(w: seq<byte>, m: seq<byte>, d: seq<byte>, k: nat): bool
    requires |w| == |m| && k < 8 * |m| && Ones(m, 8 * |m|) <= 8 * |d|
  {
    OnesMonotone(m, k + 1, 8 * |m|);
    if BitOf(m, k) then BitOf(d, Ones(m, k)) else BitOf(w, k)
  }

  /** The bits of byte q, counted from the last. */
  function ScatterEight(w: seq<byte>, m: seq<byte>, d: seq<byte>, q: nat): (bits: seq<bool>)
    requires |w| == |m| && q < |m| && Ones(m, 8 * |m|) <= 8 * |d|
    ensures |bits| == 8
  {
    seq(8, b requires 0 <= b < 8 => ScatterBit(w, m, d, 8 * q + b))
  }

  function ScatterByte(w: seq<byte>, m: seq<byte>, d: seq<byte>, q: nat): byte
    requires |w| == |m| && q < |m| && Ones(m, 8 * |m|) <= 8 * |d|
  {
    PackByte(ScatterEight(w, m, d, q))
  }

  /** The word with the data scattered into it. */
  function Scatter(w: seq<byte>, m: seq<byte>, d: seq<byte>): (r: seq<byte>)
    requires |w| == |m| && Ones(m, 8 * |m|) <= 8 * |d|
    ensures |r| == |m|
  {
    seq<byte>(|m|, i requires 0 <= i < |m| => ScatterByte(w, m, d, |m| - 1 - i))
  }

  lemma ScatterBits(w: seq<byte>, m: seq<byte>, d: seq<byte>, k: nat)
    requires |w| == |m| && k < 8 * |m| && Ones(m, 8 * |m|) <= 8 * |d|
    ensures BitOf(Scatter(w, m, d), k) == ScatterBit(w, m, d, k)
  {
    hide Bit, ScatterByte, ScatterBit;
    var q, b, i := k / 8, k % 8, |m| - 1 - k / 8;
    assert k == 8 * q + b && |m| - 1 - i == q;
    assert Scatter(w, m, d)[i] == ScatterByte(w, m, d, q);
    EightBit(w, m, d, q, b);
  }

  lemma EightBit(w: seq<byte>, m: seq<byte>, d: seq<byte>, q: nat, b: nat)
    requires |w| == |m| && q < |m| && b < 8 && Ones(m, 8 * |m|) <= 8 * |d|
    ensures Bit(ScatterByte(w, m, d, q), b) == ScatterBit(w, m, d, 8 * q + b)
  {
    hide Bit, Pack, ScatterBit;
    PackBits(ScatterEight(w, m, d, q), b);
  }

  /** A whole buffer whose value has `len` bytes, after the address mask is added to the value and
      the data scattered under the mask. */
  function NextWord(buf: seq<byte>, len: nat, address: seq<byte>, m: seq<byte>, d: seq<byte>): (r: seq<byte>)
    requires len <= |buf| && len <= |address| && |m| <= |buf| && Ones(m, 8 * |m|) <= 8 * |d|
    ensures |r| == |buf|
  {
    var sum := AddBytes(buf[..len], address[..len], 0) + buf[len..];
    Scatter(sum[..|m|], m, d) + sum[|m|..]
  }

  /** What the word means when the masks are as long as it: where the mask has its j-th one, the j-th
      bit of the data; elsewhere the bit of the old word plus the address mask modulo 256^len. */
  lemma NextWordMeans(buf: seq<byte>, len: nat, address: seq<byte>, m: seq<byte>, d: seq<byte>, k: nat)
    requires len == |m| <= |buf| && len <= |address| && Ones(m, 8 * |m|) <= 8 * |d| && k < 8 * len
    ensures var sum := AddBytes(buf[..len], address[..len], 0);
            && Value(sum) == (Value(buf[..len]) + Value(address[..len])) % Pow256(len)
            && TakesBit(NextWord(buf, len, address, m, d)[..len], sum, m, d, k)
            && NextWord(buf, len, address, m, d)[len..] == buf[len..]
  {
    hide ScatterBit, TakesBit, Scatter, BitOf, AddBytes, Ones, NextWord;
    var sum := AddBytes(buf[..len], address[..len], 0);
    AddBytesModulo(buf[..len], address[..len]);
    ScatterBits(sum, m, d, k);
    ScatterTakes(Scatter(sum, m, d), sum, m, d, k);
    SumAndRest(buf, len, address, m, d);
  }

  lemma ScatterTakes(r: seq<byte>, w: seq<byte>, m: seq<byte>, d: seq<byte>, k: nat)
    requires |r| == |w| == |m| && k < 8 * |m| && Ones(m, 8 * |m|) <= 8 * |d|
    requires BitOf(r, k) == ScatterBit(w, m, d, k)
    ensures TakesBit(r, w, m, d, k)
  {
    OnesNext(m, k);
  }

  lemma SumAndRest(buf: seq<byte>, len: nat, address: seq<byte>, m: seq<byte>, d: seq<byte>)
    requires len == |m| <= |buf| && len <= |address| && Ones(m, 8 * |m|) <= 8 * |d|
    ensures var sum := AddBytes(buf[..len], address[..len], 0);
            && NextWord(buf, len, address, m, d)[..len] == Scatter(sum, m, d)
            && NextWord(buf, len, address, m, d)[len..] == buf[len..]
  {
    hide AddBytes, Scatter, Ones;
    var sum := AddBytes(buf[..len], address[..len], 0);
    assert (sum + buf[len..])[..len] == sum && (sum + buf[len..])[len..] == buf[len..];
  }

  /** Number of ones in a byte, as the loop of `xsvfDoXSDRINC` counts them. */
  function PopCount(b: nat): nat {
    if b == 0 then 0 else b % 2 + PopCount(b / 2)
  }

  function TotalOnes(m: seq<byte>): nat {
    if m == [] then 0 else TotalOnes(m[..|m| - 1]) + PopCount(m[|m| - 1])
  }

  lemma {:induction false} ShrOut(b: byte, i: nat)
    requires i <= 8
    ensures Shr(b, i) < Pow2(8 - i)
  {
    if i == 0 {
      Pow2Byte();
    } else {
      ShrOut(b, i - 1);
    }
  }

  lemma {:induction false} OnesInByte(m: seq<byte>, q: nat, b: nat)
    requires q < |m| && b <= 8
    ensures Ones(m, 8 * q + b) + PopCount(Shr(m[|m| - 1 - q], b)) == Ones(m, 8 * q) + PopCount(m[|m| - 1 - q])
  {
    hide PopCount, Shr, Bit, BitOf;
    if b == 0 {
      PopStart(m[|m| - 1 - q]);
    } else {
      OnesInByte(m, q, b - 1);
      PopNext(m[|m| - 1 - q], b - 1);
      ByteBit(m, q, b - 1);
    }
  }

  lemma PopStart(b: nat)
    ensures Shr(b, 0) == b
  {
  }

  lemma PopNext(b: nat, i: nat)
    ensures PopCount(Shr(b, i)) == Digit(Bit(b, i)) + PopCount(Shr(b, i + 1))
  {
    ShrBit(b, i, 0);
  }

  lemma ByteBit(m: seq<byte>, q: nat, b: nat)
    requires q < |m| && b < 8
    ensures BitOf(m, 8 * q + b) == Bit(m[|m| - 1 - q], b)
  {
  }

  lemma {:induction false} OnesAndRest(m: seq<byte>, q: nat)
    requires q <= |m|
    ensures Ones(m, 8 * q) + TotalOnes(m[..|m| - q]) == TotalOnes(m)
  {
    hide Ones, TotalOnes, PopCount;
    if q == 0 {
      assert m[..|m|] == m;
      NoOnes(m);
    } else {
      OnesAndRest(m, q - 1);
      OnesOfByte(m, q - 1);
      TotalNext(m, |m| - q);
    }
  }

  lemma NoOnes(m: seq<byte>)
    ensures Ones(m, 0) == 0
  {
  }

  lemma OnesOfByte(m: seq<byte>, q: nat)
    requires q < |m|
    ensures Ones(m, 8 * q + 8) == Ones(m, 8 * q) + PopCount(m[|m| - 1 - q])
  {
    hide Ones, Shr;
    OnesInByte(m, q, 8);
    ShrOut(m[|m| - 1 - q], 8);
  }

  lemma TotalNext(m: seq<byte>, i: nat)
    requires i < |m|
    ensures TotalOnes(m[..i + 1]) == TotalOnes(m[..i]) + PopCount(m[i])
  {
    assert m[..i + 1][..i] == m[..i];
  }

  /** Counting byte by byte from the front counts every set bit. */
  lemma TotalOnesIsOnes(m: seq<byte>)
    ensures TotalOnes(m) == Ones(m, 8 * |m|)
  {
    OnesAndRest(m, |m|);
  }
}

module MaskingOps {
  import opened Bytes
  import opened LenVals
  import opened Masking
  import opened ShiftingOps

  /** The word part-way: bytes from `at` on are scattered. */
  ghost predicate Halfway(buf: seq<byte>, was: seq<byte>, m: seq<byte>, d: seq<byte>, at: nat)
    requires at <= |m| <= |was| && Ones(m, 8 * |m|) <= 8 * |d|
  {
    && |buf| == |was|
    && forall i :: 0 <= i < |was| ==>
         buf[i] == if at <= i < |m| then ScatterByte(was[..|m|], m, d, |m| - 1 - i) else was[i]
  }

  /** The reader of the data bits after c of them: `next` bytes are unread; `bit` is the number of the
      bit `ucNextMask` selects, 8 standing for the mask shifted out to zero. */
  ghost predicate Reading(d: seq<byte>, c: nat, next: nat, data: byte, bit: nat) {
    && c <= 8 * |d|
    && if c % 8 == 0 then bit == 8 && next == |d| - c / 8
       else bit == c % 8 && next == |d| - 1 - c / 8 && data == d[next]
  }

  /** The byte part-way: its bits below b are scattered. */
  ghost predicate ByteHalfway(tdi: nat, w: seq<byte>, m: seq<byte>, d: seq<byte>, q: nat, b: nat)
    requires |w| == |m| && q < |m| && b <= 8 && Ones(m, 8 * |m|) <= 8 * |d|
  {
    && tdi < 256
    && forall j: nat | j < 8 ::
         Bit(tdi, j) == if j < b then ScatterBit(w, m, d, 8 * q + j) else BitOf(w, 8 * q + j)
  }

  /** A mask bit that is clear changes nothing. */
  lemma SkipBit(tdi: nat, w: seq<byte>, m: seq<byte>, d: seq<byte>, q: nat, b: nat)
    requires |w| == |m| && q < |m| && b < 8 && Ones(m, 8 * |m|) <= 8 * |d| && !BitOf(m, 8 * q + b)
    requires ByteHalfway(tdi, w, m, d, q, b)
    ensures ByteHalfway(tdi, w, m, d, q, b + 1) && Ones(m, 8 * q + b + 1) == Ones(m, 8 * q + b)
  {
    hide Bit, BitOf;
  }

  /** Nor does the rest of a mask byte that has been shifted out to zero. */
  lemma {:induction false} SkipRest(tdi: nat, w: seq<byte>, m: seq<byte>, d: seq<byte>, q: nat, b: nat)
    requires |w| == |m| && q < |m| && b <= 8 && Ones(m, 8 * |m|) <= 8 * |d| && Shr(m[|m| - 1 - q], b) == 0
    requires ByteHalfway(tdi, w, m, d, q, b)
    ensures ByteHalfway(tdi, w, m, d, q, 8) && Ones(m, 8 * q + 8) == Ones(m, 8 * q + b)
    decreases 8 - b
  {
    hide ByteHalfway, BitOf;
    if b < 8 {
      ShrBit(m[|m| - 1 - q], b, 0);
      ByteBit(m, q, b);
      SkipBit(tdi, w, m, d, q, b);
      SkipRest(tdi, w, m, d, q, b + 1);
    }
  }

  lemma ByteDone(tdi: byte, w: seq<byte>, m: seq<byte>, d: seq<byte>, q: nat)
    requires |w| == |m| && q < |m| && Ones(m, 8 * |m|) <= 8 * |d|
    requires ByteHalfway(tdi, w, m, d, q, 8)
    ensures tdi == ScatterByte(w, m, d, q)
  {
    hide Bit, ScatterBit, Pack;
    forall j: nat | j < 8 {
      PackBits(ScatterEight(w, m, d, q), j);
    }
    Pow2Byte();
    SameBits(tdi, ScatterByte(w, m, d, q), 8);
  }

  /** One set bit of the mask: fetch a data byte if needed, set or clear the bit. */
  method PlaceBit(nextData: LenVal, ghost w: seq<byte>, ghost m: seq<byte>, ghost q: nat, b: nat, tdi: byte,
                  next: nat, data: byte, bit: nat)
    returns (tdi': byte, next': nat, data': byte, bit': nat)
    requires nextData.Valid() && |w| == |m| && q < |m| && b < 8 && Ones(m, 8 * |m|) <= 8 * nextData.len
    requires BitOf(m, 8 * q + b)
    requires Reading(nextData.View(), Ones(m, 8 * q + b), next, data, bit)
    requires ByteHalfway(tdi, w, m, nextData.View(), q, b)
    ensures Reading(nextData.View(), Ones(m, 8 * q + b + 1), next', data', bit')
    ensures ByteHalfway(tdi', w, m, nextData.View(), q, b + 1)
  {
    hide Bit, WithBit, Ones;
    OneMore(m, 8 * q + b);
    next', data', bit' := next, data, bit;
    if bit' == 8 {
      next' := next' - 1;
      data' := nextData.val[next'];
      bit' := 0;
    }
    var v := Bit(data', bit');
    ghost var d := nextData.View();
    assert v == BitOf(d, Ones(m, 8 * q + b));
    PlacedBit(tdi, w, m, d, q, b, v);
    tdi' := WithBit(tdi, b, v);
    bit' := bit' + 1;
  }

  lemma OneMore(m: seq<byte>, k: nat)
    requires k < 8 * |m| && BitOf(m, k)
    ensures Ones(m, k + 1) == Ones(m, k) + 1 <= Ones(m, 8 * |m|)
  {
    OnesMonotone(m, k + 1, 8 * |m|);
  }

  lemma PlacedBit(tdi: nat, w: seq<byte>, m: seq<byte>, d: seq<byte>, q: nat, b: nat, v: bool)
    requires |w| == |m| && q < |m| && b < 8 && Ones(m, 8 * |m|) <= 8 * |d|
    requires ByteHalfway(tdi, w, m, d, q, b) && v == ScatterBit(w, m, d, 8 * q + b)
    ensures WithBit(tdi, b, v) < 256 && ByteHalfway(WithBit(tdi, b, v), w, m, d, q, b + 1)
  {
    hide Bit, WithBit, ScatterBit;
    Pow2Byte();
    WithBitBound(tdi, b, v, 8);
    forall j: nat | j < 8 {
      WithBitBits(tdi, b, v, j);
    }
  }

  /** The bits of one mask byte. */
  method MaskByte(nextData: LenVal, ghost w: seq<byte>, ghost m: seq<byte>, ghost q: nat, maskByte: byte, tdiByte: byte,
                  next: nat, data: byte, bit: nat)
    returns (tdi: byte, next': nat, data': byte, bit': nat)
    requires nextData.Valid() && |w| == |m| && q < |m| && Ones(m, 8 * |m|) <= 8 * nextData.len
    requires maskByte == m[|m| - 1 - q] && tdiByte == w[|m| - 1 - q]
    requires Reading(nextData.View(), Ones(m, 8 * q), next, data, bit)
    ensures Reading(nextData.View(), Ones(m, 8 * q + 8), next', data', bit')
    ensures tdi == ScatterByte(w, m, nextData.View(), q)
  {
    hide Bit, BitOf, Ones, Reading, ScatterByte, ByteHalfway;
    ghost var d := nextData.View();
    tdi, next', data', bit' := tdiByte, next, data, bit;
    var mask: nat, b := maskByte, 0;
    ByteStart(tdi, w, m, d, q);
    while mask != 0
      invariant 0 <= b <= 8 && mask == Shr(maskByte, b) < Pow2(8 - b)
      invariant Reading(d, Ones(m, 8 * q + b), next', data', bit')
      invariant ByteHalfway(tdi, w, m, d, q, b)
      decreases mask
    {
      LowMaskBit(m, q, b);
      if mask % 2 == 1 {
        tdi, next', data', bit' := PlaceBit(nextData, w, m, q, b, tdi, next', data', bit');
      } else {
        SkipBit(tdi, w, m, d, q, b);
      }
      ShrOut(maskByte, b + 1);
      mask := mask / 2;
      b := b + 1;
    }
    SkipRest(tdi, w, m, d, q, b);
    ByteDone(tdi, w, m, d, q);
  }

  lemma LowMaskBit(m: seq<byte>, q: nat, b: nat)
    requires q < |m| && b < 8
    ensures BitOf(m, 8 * q + b) == (Shr(m[|m| - 1 - q], b) % 2 == 1)
  {
    ShrBit(m[|m| - 1 - q], b, 0);
  }

  lemma ByteStart(tdi: byte, w: seq<byte>, m: seq<byte>, d: seq<byte>, q: nat)
    requires |w| == |m| && q < |m| && Ones(m, 8 * |m|) <= 8 * |d| && tdi == w[|m| - 1 - q]
    ensures ByteHalfway(tdi, w, m, d, q, 0) && Shr(m[|m| - 1 - q], 0) < Pow2(8)
  {
    hide Bit;
    Pow2Byte();
  }

  method DoSDRMasking(tdi: LenVal, nextData: LenVal, addressMask: LenVal, dataMask: LenVal)
    requires tdi.Valid() && nextData.Valid() && addressMask.Valid() && dataMask.Valid()
    requires tdi.val != nextData.val && tdi.val != addressMask.val && tdi.val != dataMask.val
    requires Ones(dataMask.View(), 8 * dataMask.len) <= 8 * nextData.len
    modifies tdi`len, tdi.val
    ensures tdi.len == old(tdi.len)
    ensures tdi.val[..] == NextWord(old(tdi.val[..]), tdi.len, addressMask.val[..], dataMask.View(), nextData.View())
  {
    hide Ones, Reading, ScatterByte, AddBytes, Scatter;
    LenVal.AddVal(tdi, tdi, addressMask);
    ghost var was, m, d := tdi.val[..], dataMask.View(), nextData.View();
    assert was == AddBytes(old(tdi.View()), addressMask.val[..tdi.len], 0) + old(tdi.val[tdi.len..]);
    var data: byte, bit, next, i := 0, 8, nextData.len, dataMask.len;
    ReadingStart(m, d);
    while i > 0
      invariant 0 <= i <= dataMask.len
      invariant tdi.len == old(tdi.len) && dataMask.View() == m && nextData.View() == d
      invariant Reading(d, Ones(m, 8 * (|m| - i)), next, data, bit)
      invariant Halfway(tdi.val[..], was, m, d, i)
    {
      i := i - 1;
      ghost var q := |m| - 1 - i;
      assert |m| - (i + 1) == q && |m| - 1 - q == i;
      assert 8 * (|m| - i) == 8 * q + 8;
      var maskByte := dataMask.val[i];
      if maskByte != 0 {
        var t: byte;
        t, next, data, bit := MaskByte(nextData, was[..|m|], m, q, maskByte, tdi.val[i], next, data, bit);
        tdi.val[i] := t;
      } else {
        ZeroMaskByte(was[..|m|], m, d, q);
      }
    }
    AllScattered(tdi.val[..], was, m, d);
  }

  lemma ReadingStart(m: seq<byte>, d: seq<byte>)
    ensures Reading(d, Ones(m, 0), |d|, 0, 8)
  {
  }

  /** A mask byte of zero is passed over; its word byte is already what scattering makes of it. */
  lemma ZeroMaskByte(w: seq<byte>, m: seq<byte>, d: seq<byte>, q: nat)
    requires |w| == |m| && q < |m| && m[|m| - 1 - q] == 0 && Ones(m, 8 * |m|) <= 8 * |d|
    ensures ScatterByte(w, m, d, q) == w[|m| - 1 - q] && Ones(m, 8 * q + 8) == Ones(m, 8 * q)
  {
    hide ByteHalfway, ScatterByte;
    var t := w[|m| - 1 - q];
    ByteStart(t, w, m, d, q);
    SkipRest(t, w, m, d, q, 0);
    ByteDone(t, w, m, d, q);
  }

  lemma AllScattered(buf: seq<byte>, was: seq<byte>, m: seq<byte>, d: seq<byte>)
    requires |m| <= |was| && Ones(m, 8 * |m|) <= 8 * |d| && Halfway(buf, was, m, d, 0)
    ensures buf == Scatter(was[..|m|], m, d) + was[|m|..]
  {
    hide ScatterByte, Ones;
    var r := Scatter(was[..|m|], m, d) + was[|m|..];
    assert |r| == |buf|;
    forall i | 0 <= i < |buf|
      ensures buf[i] == r[i]
    {
      if i < |m| {
        assert Scatter(was[..|m|], m, d)[i] == ScatterByte(was[..|m|], m, d, |m| - 1 - i);
      }
    }
  }
}
