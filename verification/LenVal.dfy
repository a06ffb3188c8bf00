/** Unsigned chars, their bits, and byte strings: a byte string is big-endian and its bits are
    counted from the least significant bit of its last byte. */
module Bytes {

  type byte = b: nat | b < 256

  /** Truncation to an unsigned char. */
  function ToByte(n: nat): byte {
    n % 256
  }

  function Bit(b: nat, i: nat): bool {
    if i == 0 then b % 2 == 1 else Bit(b / 2, i - 1)
  }

  function Digit(on: bool): nat {
    if on then 1 else 0
  }

  function Pow2(n: nat): (p: nat)
    ensures p > 0
  {
    if n == 0 then 1 else 2 * Pow2(n - 1)
  }

  /** b with its bit i set to v: `b |= 1 << i` or `b &= ~(1 << i)`. */
  function WithBit(b: nat, i: nat, v: bool): nat {
    if i == 0 then b / 2 * 2 + Digit(v) else b % 2 + 2 * WithBit(b / 2, i - 1, v)
  }

  lemma {:induction false} WithBitBits(b: nat, i: nat, v: bool, j: nat)
    ensures Bit(WithBit(b, i, v), j) == if i == j then v else Bit(b, j)
  {
    if i > 0 && j > 0 {
      WithBitBits(b / 2, i - 1, v, j - 1);
    }
  }

  lemma {:induction false} WithBitBound(b: nat, i: nat, v: bool, n: nat)
    requires i < n && b < Pow2(n)
    ensures WithBit(b, i, v) < Pow2(n)
  {
    hide WithBit;
    assert Pow2(n) == 2 * Pow2(n - 1);
    WithBitHalves(b, i, v);
    if i > 0 {
      WithBitBound(b / 2, i - 1, v, n - 1);
    }
  }

  lemma WithBitHalves(b: nat, i: nat, v: bool)
    ensures WithBit(b, i, v) / 2 == if i == 0 then b / 2 else WithBit(b / 2, i - 1, v)
  {
  }

  /** The bitwise conjunction `a & b`. */
  function And(a: nat, b: nat): (r: nat)
    ensures r <= a
  {
    if a == 0 then 0 else Digit(a % 2 == 1 && b % 2 == 1) + 2 * And(a / 2, b / 2)
  }

  lemma {:induction false} AndBits(a: nat, b: nat, i: nat)
    ensures Bit(And(a, b), i) == (Bit(a, i) && Bit(b, i))
  {
    if a == 0 {
      ZeroBits(i);
    } else if i > 0 {
      AndBits(a / 2, b / 2, i - 1);
    }
  }

  lemma {:induction false} ZeroBits(i: nat)
    ensures !Bit(0, i)
  {
    if i > 0 {
      ZeroBits(i - 1);
    }
  }

  /** Numbers below 2^n are told apart by their n low bits. */
  lemma {:induction false} SameBits(a: nat, b: nat, n: nat)
    requires a < Pow2(n) && b < Pow2(n)
    requires forall i: nat | i < n :: Bit(a, i) == Bit(b, i)
    ensures a == b
  {
    if n > 0 {
      assert Bit(a, 0) == Bit(b, 0);
      forall i: nat | i < n - 1
        ensures Bit(a / 2, i) == Bit(b / 2, i)
      {
        assert Bit(a, i + 1) == Bit(b, i + 1);
      }
      SameBits(a / 2, b / 2, n - 1);
    }
  }

  lemma Pow2Byte()
    ensures Pow2(8) == 256
  {
    assert Pow2(4) == 16;
  }

  /** The number whose bit i is bs[i]. */
  function Pack(bs: seq<bool>): (n: nat)
    ensures n < Pow2(|bs|)
  {
    if bs == [] then 0 else Digit(bs[0]) + 2 * Pack(bs[1..])
  }

  function PackByte(bs: seq<bool>): byte
    requires |bs| <= 8
  {
    Pow2Monotone(|bs|, 8);
    Pow2Byte();
    Pack(bs)
  }

  lemma {:induction false} Pow2Monotone(m: nat, n: nat)
    requires m <= n
    ensures Pow2(m) <= Pow2(n)
  {
    if m < n {
      Pow2Monotone(m, n - 1);
    }
  }

  lemma {:induction false} PackBits(bs: seq<bool>, i: nat)
    ensures Bit(Pack(bs), i) == (i < |bs| && bs[i])
  {
    if bs == [] {
      ZeroBits(i);
    } else if i > 0 {
      PackBits(bs[1..], i - 1);
    }
  }

  /** Adding a bit above those already packed. */
  lemma {:induction false} PackSnoc(bs: seq<bool>, v: bool)
    ensures Pack(bs + [v]) == Pack(bs) + Digit(v) * Pow2(|bs|)
  {
    if bs != [] {
      assert (bs + [v])[1..] == bs[1..] + [v];
      PackSnoc(bs[1..], v);
    }
  }

  /** The k-th bit of a big-endian byte string, least significant first. */
  function BitOf(v: seq<byte>, k: nat): bool
    requires k < 8 * |v|
  {
    Bit(v[|v| - 1 - k / 8], k % 8)
  }

  function Bits(v: seq<byte>, n: nat): (bits: seq<bool>)
    requires n <= 8 * |v|
    ensures |bits| == n
  {
    seq(n, k requires 0 <= k < n => BitOf(v, k))
  }

  /** The unsigned number a big-endian byte string stands for. */
  function Value(v: seq<byte>): nat {
    if v == [] then 0 else 256 * Value(v[..|v| - 1]) + v[|v| - 1]
  }

  function Pow256(n: nat): (p: nat)
    ensures p > 0
  {
    if n == 0 then 1 else 256 * Pow256(n - 1)
  }

  lemma {:induction false} ValueBound(v: seq<byte>)
    ensures Value(v) < Pow256(|v|)
  {
    if v != [] {
      ValueBound(v[..|v| - 1]);
    }
  }

  /** The carry into place k of an addition whose last place takes `carry`. */
  function CarryAt(a: seq<byte>, b: seq<byte>, k: nat, carry: nat): (c: nat)
    requires k <= |a| == |b| && carry <= 1
    ensures c <= 1
    decreases |a| - k
  {
    if k == |a| then carry
    else if a[k] + b[k] + CarryAt(a, b, k + 1, carry) > 255 then 1 else 0
  }

  function DigitAt(a: seq<byte>, b: seq<byte>, k: nat, carry: nat): byte
    requires k < |a| == |b| && carry <= 1
  {
    ToByte(a[k] + b[k] + CarryAt(a, b, k + 1, carry))
  }

  /** Big-endian addition of equally long values, byte by byte; the carry out is dropped. */
  function AddBytes(a: seq<byte>, b: seq<byte>, carry: nat): (r: seq<byte>)
    requires |a| == |b| && carry <= 1
    ensures |r| == |a|
  {
    seq(|a|, k requires 0 <= k < |a| => DigitAt(a, b, k, carry))
  }

  lemma NoCarryIn(a: seq<byte>, b: seq<byte>)
    requires |a| == |b|
    ensures CarryAt(a, b, |a|, 0) == 0
  {
  }

  lemma CarryNext(a: seq<byte>, b: seq<byte>, k: nat, sum: nat)
    requires k < |a| == |b| && sum == a[k] + b[k] + CarryAt(a, b, k + 1, 0)
    ensures CarryAt(a, b, k, 0) == (if sum > 255 then 1 else 0) && DigitAt(a, b, k, 0) == ToByte(sum)
  {
  }

  lemma AllDigits(r: seq<byte>, a: seq<byte>, b: seq<byte>)
    requires |r| == |a| == |b| && forall k :: 0 <= k < |a| ==> r[k] == DigitAt(a, b, k, 0)
    ensures r == AddBytes(a, b, 0)
  {
  }

  lemma {:induction false} CarryAtPrefix(a: seq<byte>, b: seq<byte>, k: nat, n: nat, carry: nat)
    requires k <= n <= |a| == |b| && carry <= 1
    ensures CarryAt(a[..n], b[..n], k, CarryAt(a, b, n, carry)) == CarryAt(a, b, k, carry)
    decreases n - k
  {
    if k < n {
      CarryAtPrefix(a, b, k + 1, n, carry);
    }
  }

  lemma AddBytesSplit(a: seq<byte>, b: seq<byte>, carry: nat)
    requires |a| == |b| > 0 && carry <= 1
    ensures var n := |a| - 1;
            var c := CarryAt(a, b, n, carry);
            && AddBytes(a, b, carry)[..n] == AddBytes(a[..n], b[..n], c)
            && CarryAt(a, b, 0, carry) == CarryAt(a[..n], b[..n], 0, c)
  {
    var n := |a| - 1;
    forall k | 0 <= k <= n {
      CarryAtPrefix(a, b, k, n, carry);
    }
  }

  /** It is addition: the result and the carry out are the exact sum. */
  lemma {:induction false} AddBytesIsSum(a: seq<byte>, b: seq<byte>, carry: nat)
    requires |a| == |b| && carry <= 1
    ensures var out := if CarryAt(a, b, 0, carry) == 1 then Pow256(|a|) else 0;
            Value(AddBytes(a, b, carry)) + out == Value(a) + Value(b) + carry
  {
    if a != [] {
      var n := |a| - 1;
      AddBytesSplit(a, b, carry);
      AddBytesIsSum(a[..n], b[..n], CarryAt(a, b, n, carry));
      LastColumn(a[n], b[n], carry);
    }
  }

  lemma LastColumn(a: byte, b: byte, carry: nat)
    requires carry <= 1
    ensures ToByte(a + b + carry) + 256 * (if a + b + carry > 255 then 1 else 0) == a + b + carry
  {
  }

  /** So dropping the carry out is addition modulo 256^len. */
  lemma AddBytesModulo(a: seq<byte>, b: seq<byte>)
    requires |a| == |b|
    ensures Value(AddBytes(a, b, 0)) == (Value(a) + Value(b)) % Pow256(|a|)
  {
    hide Value, Pow256, AddBytes, CarryAt;
    AddBytesIsSum(a, b, 0);
    var sum := Value(AddBytes(a, b, 0));
    ValueBound(AddBytes(a, b, 0));
    ModuloOf(sum, Pow256(|a|));
    if CarryAt(a, b, 0, 0) == 1 {
      assert Value(a) + Value(b) == sum + Pow256(|a|);
    } else {
      assert Value(a) + Value(b) == sum;
    }
  }

  lemma ModuloOf(rest: nat, m: nat)
    requires rest < m
    ensures rest % m == rest && (rest + m) % m == rest
  {
  }
}

/** The byte source of the player (`readByte` in jtag/ports.c): past the end of the file it
    yields 0xFF, the end-of-file value cut to a byte, for ever. */
module Source {
  import opened Bytes

  class Input {
    const data: seq<byte>
    var pos: nat

    ghost predicate Valid()
      reads this
    {
      pos <= |data|
    }

    constructor (data: seq<byte>)
      ensures Valid() && this.data == data && pos == 0
    {
      this.data := data;
      pos := 0;
    }

    method ReadByte() returns (b: byte)
      requires Valid()
      modifies this`pos
      ensures Valid() && b == At(data, old(pos)) && pos == After(data, old(pos), 1)
    {
      if pos < |data| {
        b := data[pos];
        pos := pos + 1;
      } else {
        b := 0xFF;
      }
    }
  }

  function At(data: seq<byte>, pos: nat): byte {
    if pos < |data| then data[pos] else 0xFF
  }

  function After(data: seq<byte>, pos: nat, n: nat): nat
    requires pos <= |data|
  {
    if pos + n <= |data| then pos + n else |data|
  }

  /** The n bytes a read at `pos` yields. */
  function Take(data: seq<byte>, pos: nat, n: nat): seq<byte> {
    seq<byte>(n, k requires 0 <= k < n => At(data, pos + k))
  }
}

/** The variable-length byte values of jtag/lenval.c. */
module LenVals {
  import opened Bytes
  import Source

  const MAX_LEN: nat := 7000

  class LenVal {
    var len: nat
    const val: array<byte>

    ghost predicate Valid()
      reads this
    {
      val.Length == MAX_LEN + 1 && len <= MAX_LEN
    }

    /** The significant bytes. */
    ghost function View(): seq<byte>
      requires Valid()
      reads this, val
    {
      val[..len]
    }

    /** As on the stack of `xsvfExecute`: nothing is initialised. */
    constructor ()
      ensures Valid() && fresh(val)
    {
      len := *;
      val := new byte[MAX_LEN + 1];
      new;
      if len > MAX_LEN {
        len := 0;
      }
    }

    method Value() returns (v: nat)
      requires Valid()
      ensures v == Bytes.Value(View())
    {
      v := 0;
      for i := 0 to len
        invariant v == Bytes.Value(val[..i])
      {
        assert val[..i + 1][..i] == val[..i];
        v := 256 * v + val[i];
      }
    }

    method ReadVal(input: Source.Input, n: nat)
      requires Valid() && n <= MAX_LEN && input.Valid()
      modifies this`len, val, input`pos
      ensures Valid() && len == n && input.Valid()
      ensures View() == Source.Take(input.data, old(input.pos), n)
      ensures input.pos == Source.After(input.data, old(input.pos), n)
      ensures val[..] == Source.Take(input.data, old(input.pos), n) + old(val[n..])
    {
      len := n;
      for i := 0 to n
        invariant len == n && input.Valid() && input.pos == Source.After(input.data, old(input.pos), i)
        invariant forall k :: 0 <= k < i ==> val[k] == Source.At(input.data, old(input.pos) + k)
        invariant val[i..] == old(val[i..])
      {
        ghost var rest := val[i..];
        var b := input.ReadByte();
        val[i] := b;
        assert val[i + 1..] == rest[1..];
      }
    }

    /** The sum of two values over the length of the first; the result may be either of them. */
    static method AddVal(res: LenVal, a: LenVal, b: LenVal)
      requires res.Valid() && a.Valid() && b.Valid()
      modifies res`len, res.val
      ensures res.Valid() && res.len == old(a.len)
      ensures res.View() == AddBytes(old(a.View()), old(b.val[..a.len]), 0)
      ensures res.val[res.len..] == old(res.val[a.len..])
    {
      hide CarryAt, DigitAt, AddBytes;
      ghost var n, a0, b0 := a.len, a.View(), b.val[..a.len];
      NoCarryIn(a0, b0);
      res.len := a.len;
      var carry := 0;
      var i := res.len;
      while i > 0
        invariant 0 <= i <= n == res.len && carry == CarryAt(a0, b0, i, 0)
        invariant forall k :: 0 <= k < i ==> a.val[k] == a0[k] && b.val[k] == b0[k]
        invariant forall k :: i <= k < n ==> res.val[k] == DigitAt(a0, b0, k, 0)
        invariant forall k :: n <= k < res.val.Length ==> res.val[k] == old(res.val[k])
      {
        i := i - 1;
        var val1: nat, val2: nat := a.val[i], b.val[i];
        var sum := val1 + val2 + carry;
        CarryNext(a0, b0, i, sum);
        carry := if sum > 255 then 1 else 0;
        res.val[i] := ToByte(sum);
      }
      AllDigits(res.View(), a0, b0);
    }
  }

  /** An optional compare mask. */
  datatype Mask = NoMask | Under(bytes: seq<byte>)

  ghost function MaskOf(mask: LenVal?): Mask
    reads if mask == null then {} else {mask, mask.val}
  {
    if mask == null then NoMask else Under(mask.val[..])
  }

  /** Byte k with only the bits the mask selects. */
  function Select(b: byte, mask: Mask, k: nat): byte
    requires mask.Under? ==> k < |mask.bytes|
  {
    if mask.Under? then And(b, mask.bytes[k]) else b
  }

  predicate AgreeAt(expected: seq<byte>, captured: seq<byte>, mask: Mask, k: nat)
    requires k < |expected| && k < |captured| && (mask.Under? ==> k < |mask.bytes|)
  {
    Select(expected[k], mask, k) == Select(captured[k], mask, k)
  }

  /** Every expected byte agrees with the captured one where the mask, if any, has ones. */
  predicate Matches(expected: seq<byte>, captured: seq<byte>, mask: Mask)
    requires |expected| <= |captured| && (mask.Under? ==> |expected| <= |mask.bytes|)
  {
    forall k :: 0 <= k < |expected| ==> AgreeAt(expected, captured, mask, k)
  }

  /** Bit i of byte k counts in the comparison. */
  predicate Compared(mask: Mask, k: nat, i: nat)
    requires mask.Under? ==> k < |mask.bytes|
  {
    mask.Under? ==> Bit(mask.bytes[k], i)
  }

  /** Two values match exactly if every bit that counts is the same in both. */
  lemma MatchesMeans(expected: seq<byte>, captured: seq<byte>, mask: Mask)
    requires |expected| <= |captured| && (mask.Under? ==> |expected| <= |mask.bytes|)
    ensures Matches(expected, captured, mask) <==>
              forall k, i: nat :: 0 <= k < |expected| && i < 8 && Compared(mask, k, i) ==>
                Bit(expected[k], i) == Bit(captured[k], i)
  {
    hide Bit, Select;
    if Matches(expected, captured, mask) {
      forall k, i: nat | 0 <= k < |expected| && i < 8 && Compared(mask, k, i)
        ensures Bit(expected[k], i) == Bit(captured[k], i)
      {
        assert AgreeAt(expected, captured, mask, k);
        SelectBit(expected[k], mask, k, i);
        SelectBit(captured[k], mask, k, i);
      }
    } else {
      var k :| 0 <= k < |expected| && !AgreeAt(expected, captured, mask, k);
      if forall i: nat :: i < 8 && Compared(mask, k, i) ==> Bit(expected[k], i) == Bit(captured[k], i) {
        forall i: nat | i < 8
          ensures Bit(Select(expected[k], mask, k), i) == Bit(Select(captured[k], mask, k), i)
        {
          SelectBit(expected[k], mask, k, i);
          SelectBit(captured[k], mask, k, i);
        }
        Pow2Byte();
        SameBits(Select(expected[k], mask, k), Select(captured[k], mask, k), 8);
        assert false;
      }
    }
  }

  lemma SelectBit(b: byte, mask: Mask, k: nat, i: nat)
    requires mask.Under? ==> k < |mask.bytes|
    ensures Bit(Select(b, mask, k), i) == (Bit(b, i) && Compared(mask, k, i))
  {
    hide Bit;
    if mask.Under? {
      AndBits(b, mask.bytes[k], i);
    }
  }

  /** Compare two values over the length of the first, under an optional mask. */
  method EqualLenVal(expected: LenVal, captured: LenVal, mask: LenVal?) returns (equal: bool)
    requires expected.Valid() && captured.Valid() && (mask != null ==> mask.Valid())
    ensures equal == Matches(expected.View(), captured.val[..], MaskOf(mask))
  {
    equal := true;
    var i := expected.len;
    ghost var e, c, m := expected.View(), captured.val[..], MaskOf(mask);
    while equal && i > 0
      invariant 0 <= i <= |e|
      invariant if equal then forall k :: i <= k < |e| ==> AgreeAt(e, c, m, k) else i < |e| && !AgreeAt(e, c, m, i)
    {
      i := i - 1;
      var v1, v2 := expected.val[i], captured.val[i];
      if mask != null {
        v1 := And(v1, mask.val[i]);
        v2 := And(v2, mask.val[i]);
      }
      assert v1 == Select(e[i], m, i) && v2 == Select(c[i], m, i);
      if v1 != v2 {
        equal := false;
      }
    }
  }
}
