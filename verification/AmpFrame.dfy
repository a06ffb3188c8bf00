/** The frames of the amplifier's serial line (acdx/lib/libamp.c). */
module Framing {
  import opened Bytes

  const STX: byte := 0x02
  const ETX: byte := 0x03
  const ESC: byte := 0x1B
  const OPB: byte := 0x7B
  const CLB: byte := 0x7D

  /** The bytes that may not appear inside a frame as they are. */
  predicate IsSpecial(c: byte) {
    c == STX || c == ETX || c == ESC || c == OPB || c == CLB
  }

  function Plus(c: byte): byte {
    (c + 0x40) % 256
  }

  function Minus(c: byte): byte {
    (c + 256 - 0x40) % 256
  }

  predicate Framed(f: seq<byte>) {
    |f| > 0 && f[0] == STX && f[|f| - 1] == ETX
  }

  function Inside(f: seq<byte>): seq<byte>
    requires Framed(f)
  {
    f[1..|f| - 1]
  }

  function Encoded(c: byte): (r: seq<byte>)
    ensures 1 <= |r| <= 2
  {
    if IsSpecial(c) then [ESC, Plus(c)] else [c]
  }

  function EscapeBody(s: seq<byte>): (r: seq<byte>)
    ensures |s| <= |r| <= 2 * |s|
  {
    if s == [] then [] else EscapeBody(s[..|s| - 1]) + Encoded(s[|s| - 1])
  }

  function Escape(f: seq<byte>): seq<byte>
    requires Framed(f)
  {
    [STX] + EscapeBody(Inside(f)) + [ETX]
  }

  /** How many bytes need an escape. */
  function Specials(s: seq<byte>): nat {
    if s == [] then 0 else Specials(s[..|s| - 1]) + if IsSpecial(s[|s| - 1]) then 1 else 0
  }

  /** Escaping makes a frame longer by just that many. */
  lemma EscapedLength(f: seq<byte>)
    requires Framed(f)
    ensures |Escape(f)| == |f| + Specials(Inside(f))
  {
    BodyLength(Inside(f));
  }

  lemma {:induction false} BodyLength(s: seq<byte>)
    ensures |EscapeBody(s)| == |s| + Specials(s)
  {
    if s != [] {
      BodyLength(s[..|s| - 1]);
    }
  }

  /** The byte after an escape is taken as it is, even when it is the closing one. */
  function UnescapeBody(s: seq<byte>): (r: seq<byte>)
    ensures |r| <= |s|
  {
    if s == [] then []
    else if s[0] != ESC then [s[0]] + UnescapeBody(s[1..])
    else if |s| == 1 then [Minus(ETX)]
    else [Minus(s[1])] + UnescapeBody(s[2..])
  }

  function Unescape(f: seq<byte>): seq<byte>
    requires Framed(f)
  {
    [STX] + UnescapeBody(Inside(f)) + [ETX]
  }

  // ----- laws -----

  /** A body whose every escape byte has a byte after it splits anywhere the first part does. */
  lemma {:induction false} UnescapeEncoded(s: seq<byte>, rest: seq<byte>)
    ensures UnescapeBody(EscapeBody(s) + rest) == s + UnescapeBody(rest)
    decreases |s|
  {
    hide UnescapeBody, Encoded;
    if s == [] {
      assert EscapeBody(s) + rest == rest;
    } else {
      var n := |s| - 1;
      var code := Encoded(s[n]);
      assert EscapeBody(s) + rest == EscapeBody(s[..n]) + (code + rest);
      UnescapeEncoded(s[..n], code + rest);
      OneEncoded(s[n], rest);
      assert s[..n] + ([s[n]] + UnescapeBody(rest)) == s + UnescapeBody(rest);
    }
  }

  lemma OneEncoded(c: byte, rest: seq<byte>)
    ensures UnescapeBody(Encoded(c) + rest) == [c] + UnescapeBody(rest)
  {
    var t := Encoded(c) + rest;
    if IsSpecial(c) {
      assert t[0] == ESC && t[1] == Plus(c) && t[2..] == rest;
    } else {
      assert t[0] == c && t[1..] == rest;
    }
  }

  lemma InsideOf(body: seq<byte>)
    ensures Framed([STX] + body + [ETX]) && Inside([STX] + body + [ETX]) == body
  {
  }

  lemma FrameIs(f: seq<byte>)
    requires Framed(f)
    ensures f == [STX] + Inside(f) + [ETX]
  {
  }

  /** Unescaping undoes escaping, for every frame. */
  lemma RoundTrip(f: seq<byte>)
    requires Framed(f)
    ensures Framed(Escape(f)) && Unescape(Escape(f)) == f
  {
    var body := EscapeBody(Inside(f));
    InsideOf(body);
    UnescapeEncoded(Inside(f), []);
    assert body + [] == body && Inside(f) + [] == Inside(f);
    FrameIs(f);
  }

  predicate Shifted(c: byte) {
    c == 0x42 || c == 0x43 || c == 0x5B || c == 0xBB || c == 0xBD
  }

  /** No delimiter or brace is left inside, and every escape byte introduces a shifted special one. */
  ghost predicate Clean(s: seq<byte>) {
    && (forall k :: 0 <= k < |s| ==> s[k] != STX && s[k] != ETX && s[k] != OPB && s[k] != CLB)
    && forall k :: 0 <= k < |s| && s[k] == ESC ==> k + 1 < |s| && Shifted(s[k + 1])
  }

  lemma {:induction false} EscapedIsClean(s: seq<byte>)
    ensures Clean(EscapeBody(s))
  {
    if s != [] {
      EscapedIsClean(s[..|s| - 1]);
    }
  }

  /** An escaped frame ends at its first ETX, so no escaped frame is a proper prefix of another, and what
      follows one on the line is determined. */
  lemma PrefixFree(f: seq<byte>, g: seq<byte>, x: seq<byte>, y: seq<byte>)
    requires Framed(f) && Framed(g) && Escape(f) + x == Escape(g) + y
    ensures f == g && x == y
  {
    var a, b := EscapeBody(Inside(f)), EscapeBody(Inside(g));
    FirstEtx(f, x);
    FirstEtx(g, y);
    var s := Escape(f) + x;
    assert a == s[1..|a| + 1] == b;
    assert x == s[|a| + 2..] == y;
    RoundTrip(f);
    RoundTrip(g);
  }

  lemma FirstEtx(f: seq<byte>, x: seq<byte>)
    requires Framed(f)
    ensures var s, n := Escape(f) + x, |EscapeBody(Inside(f))|;
            s[n + 1] == ETX && (forall k :: 0 <= k < n + 1 ==> s[k] != ETX)
            && s[1..n + 1] == EscapeBody(Inside(f)) && s[n + 2..] == x
  {
    EscapedIsClean(Inside(f));
  }

  function Stream(frames: seq<seq<byte>>): seq<byte>
    requires forall f <- frames :: Framed(f)
  {
    if frames == [] then [] else Escape(frames[0]) + Stream(frames[1..])
  }

  lemma StreamEmpty(frames: seq<seq<byte>>)
    requires forall f <- frames :: Framed(f)
    ensures Stream(frames) == [] <==> frames == []
  {
    if frames != [] {
      assert |Escape(frames[0])| > 0;
    }
  }

  /** A stream of escaped frames splits in one way only. */
  lemma {:induction false} StreamSplitsUniquely(fs: seq<seq<byte>>, gs: seq<seq<byte>>)
    requires (forall f <- fs :: Framed(f)) && (forall g <- gs :: Framed(g)) && Stream(fs) == Stream(gs)
    ensures fs == gs
  {
    StreamEmpty(fs);
    StreamEmpty(gs);
    if fs != [] {
      PrefixFree(fs[0], gs[0], Stream(fs[1..]), Stream(gs[1..]));
      StreamSplitsUniquely(fs[1..], gs[1..]);
      assert fs == [fs[0]] + fs[1..] && gs == [gs[0]] + gs[1..];
    }
  }

  // ----- packets -----

  /** Length of what is delimited at the front of a buffer of `size` bytes, or the whole size. */
  function SizeFrom(buf: seq<byte>, i: nat, size: nat): nat
    requires i <= |buf|
  {
    if i <= 1 then size
    else if buf[i - 1] == ETX then i
    else if buf[i - 1] != 0 then size
    else SizeFrom(buf, i - 1, size)
  }

  function BufSize(buf: seq<byte>): nat {
    if buf == [] || buf[0] != STX then |buf| else SizeFrom(buf, |buf|, |buf|)
  }

  lemma {:induction false} SizeIsExact(f: seq<byte>, n: nat, i: nat, size: nat)
    requires Framed(f) && |f| <= i <= |f| + n
    ensures SizeFrom(f + Zeros(n), i, size) == |f|
    decreases i
  {
    if i > |f| {
      SizeIsExact(f, n, i - 1, size);
    }
  }

  function Zeros(n: nat): (z: seq<byte>)
    ensures |z| == n
  {
    seq<byte>(n, _ => 0)
  }

  /** The size found for a zero-padded frame is its exact length. */
  lemma PaddedSize(f: seq<byte>, n: nat)
    requires Framed(f)
    ensures BufSize(f + Zeros(n)) == |f|
  {
    SizeIsExact(f, n, |f| + n, |f| + n);
  }

  /** In any buffer: up to the last byte that is not zero if that is an ETX and the buffer begins with STX, and
      the whole of it otherwise. */
  lemma BufSizeMeans(buf: seq<byte>, n: nat)
    requires 1 < n <= |buf| && buf[n - 1] != 0 && forall k :: n <= k < |buf| ==> buf[k] == 0
    ensures BufSize(buf) == if buf[0] == STX && buf[n - 1] == ETX then n else |buf|
  {
    if buf[0] == STX {
      SizeFromMeans(buf, n, |buf|, |buf|);
    }
  }

  lemma {:induction false} SizeFromMeans(buf: seq<byte>, n: nat, i: nat, size: nat)
    requires 1 < n <= i <= |buf| && buf[n - 1] != 0 && forall k :: n <= k < |buf| ==> buf[k] == 0
    ensures SizeFrom(buf, i, size) == if buf[n - 1] == ETX then n else size
    decreases i
  {
    if i > n {
      SizeFromMeans(buf, n, i - 1, size);
    }
  }

  function Xor(a: nat, b: nat): nat {
    if a == 0 then b else Digit((a % 2 == 1) != (b % 2 == 1)) + 2 * Xor(a / 2, b / 2)
  }

  lemma {:induction false} XorBound(a: nat, b: nat, n: nat)
    requires a < Pow2(n) && b < Pow2(n)
    ensures Xor(a, b) < Pow2(n)
  {
    if a != 0 && n > 0 {
      XorBound(a / 2, b / 2, n - 1);
    }
  }

  lemma {:induction false} XorBits(a: nat, b: nat, i: nat)
    ensures Bit(Xor(a, b), i) == (Bit(a, i) != Bit(b, i))
  {
    if a == 0 {
      ZeroBits(i);
    } else if i > 0 {
      XorBits(a / 2, b / 2, i - 1);
    }
  }

  function XorByte(a: byte, b: byte): byte {
    Pow2Byte();
    XorBound(a, b, 8);
    Xor(a, b)
  }

  function XorAll(s: seq<byte>): byte {
    if s == [] then 0 else XorByte(XorAll(s[..|s| - 1]), s[|s| - 1])
  }

  /** Whether an odd number of the bytes have bit i. */
  function OddOnes(s: seq<byte>, i: nat): bool {
    if s == [] then false else OddOnes(s[..|s| - 1], i) != Bit(s[|s| - 1], i)
  }

  lemma {:induction false} XorAllBits(s: seq<byte>, i: nat)
    ensures Bit(XorAll(s), i) == OddOnes(s, i)
  {
    hide Bit, Xor;
    if s == [] {
      ZeroBits(i);
    } else {
      XorAllBits(s[..|s| - 1], i);
      XorBits(XorAll(s[..|s| - 1]), s[|s| - 1], i);
    }
  }

  /** The checksum of the fields it covers; it steps round zero and the two delimiters. */
  function CheckSum(fields: seq<byte>): byte {
    var x := XorAll(fields);
    if x == 0 || x == STX || x == ETX then x + 0x0A else x
  }

  /** Bit by bit, unless it stepped: whether an odd number of the fields have the bit. */
  lemma CheckSumBits(fields: seq<byte>)
    ensures CheckSum(fields) !in {0x0A, 0x0C, 0x0D} ==> forall i: nat :: i < 8 ==> Bit(CheckSum(fields), i) == OddOnes(fields, i)
    ensures CheckSum(fields) == 0x0A ==>
              (forall i: nat :: i < 8 ==> !OddOnes(fields, i)) || (forall i: nat :: i < 8 ==> OddOnes(fields, i) == Bit(0x0A, i))
  {
    hide XorAll, Bit;
    forall i: nat | i < 8
      ensures Bit(XorAll(fields), i) == OddOnes(fields, i)
    {
      XorAllBits(fields, i);
    }
    if XorAll(fields) == 0 {
      forall i: nat | i < 8
        ensures !Bit(0, i)
      {
        ZeroBits(i);
      }
    }
  }

  /** So a checksum is never a delimiter or zero; and two packets have the same one exactly when their
      sums agree or are one of the three pairs that were made to meet. */
  lemma CheckSumMeans(a: seq<byte>, b: seq<byte>)
    ensures CheckSum(a) != 0 && CheckSum(a) != STX && CheckSum(a) != ETX
    ensures var x, y := XorAll(a), XorAll(b);
            CheckSum(a) == CheckSum(b) <==>
              x == y || (x < 4 && x != 1 && y == x + 0x0A) || (y < 4 && y != 1 && x == y + 0x0A)
  {
  }

  datatype Request = Request(id0: byte, id1: byte, cmd: byte, payload: seq<byte>)

  function RequestFrame(p: Request): (f: seq<byte>)
    ensures Framed(f)
  {
    var covered := [STX, p.id0, p.id1, p.cmd] + p.payload;
    covered + [CheckSum(covered), ETX]
  }

  /** What a request puts on the line, as a receiver that drops padding and unescapes sees it. */
  lemma RequestArrives(p: Request, n: nat)
    ensures var f := RequestFrame(p);
            && BufSize(f + Zeros(n)) == |f| == 6 + |p.payload|
            && Framed(Escape(f)) && Unescape(Escape(f)) == f
  {
    PaddedSize(RequestFrame(p), n);
    RoundTrip(RequestFrame(p));
  }

  datatype Reply = Reply(id0: byte, id1: byte, cmd: byte, mod0: byte, mod1: byte, payload: seq<byte>, checksum: byte)

  function Covered(r: Reply): seq<byte> {
    [STX, r.id0, r.id1, r.cmd, r.mod0, r.mod1] + r.payload
  }

  function ReplyFrame(r: Reply): (f: seq<byte>)
    ensures Framed(f)
  {
    Covered(r) + [r.checksum, ETX]
  }

  /** A byte of the zeroed input buffer. */
  function At(f: seq<byte>, i: nat): byte {
    if i < |f| then f[i] else 0
  }

  /** The reply parsing of `SendRecvCommand`. */
  function Parse(f: seq<byte>): Reply
    requires |f| >= 2
  {
    Reply(At(f, 1), At(f, 2), At(f, 3), At(f, 4), At(f, 5), if |f| >= 8 then f[6..|f| - 2] else [], At(f, |f| - 2))
  }

  predicate Accepted(r: Reply) {
    CheckSum(Covered(r)) == r.checksum
  }

  /** The part of a buffer its size says is there. */
  function Cut(buf: seq<byte>): seq<byte> {
    SizeBound(buf, |buf|, |buf|);
    buf[..BufSize(buf)]
  }

  lemma {:induction false} SizeBound(buf: seq<byte>, i: nat, size: nat)
    requires i <= |buf|
    ensures SizeFrom(buf, i, size) <= i || SizeFrom(buf, i, size) == size
  {
    if i > 1 {
      SizeBound(buf, i - 1, size);
    }
  }

  /** A reply too short for all its fields has no payload, and zeros for those beyond its end. */
  lemma ShortReply(f: seq<byte>)
    requires 2 <= |f| < 8
    ensures var r, buf := Parse(f), f + Zeros(8 - |f|);
            && r.payload == [] && [r.id0, r.id1, r.cmd, r.mod0, r.mod1] == buf[1..6] && r.checksum == f[|f| - 2]
  {
  }

  /** A reply sent escaped and read into a zeroed buffer is parsed back field by field; its checksum is
      accepted exactly when it is the checksum of those fields. */
  lemma ReplyArrives(r: Reply, n: nat)
    ensures var wire := Escape(ReplyFrame(r));
            var seen := Cut(wire + Zeros(n));
            && Framed(seen) && Unescape(seen) == ReplyFrame(r) && Parse(Unescape(seen)) == r
            && (Accepted(Parse(Unescape(seen))) <==> r.checksum == CheckSum(Covered(r)))
  {
    var f := ReplyFrame(r);
    RoundTrip(f);
    PaddedSize(Escape(f), n);
    assert (Escape(f) + Zeros(n))[..|Escape(f)|] == Escape(f);
    assert f[6..|f| - 2] == r.payload;
  }
}
