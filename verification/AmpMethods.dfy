/** The library's global buffers and the routines that fill and rewrite them (acdx/lib/libamp.c). */
module AmpOps {
  import opened Bytes
  import opened Framing

  const OBUF_SIZE: nat := 1023
  const IBUF_SIZE: nat := 0x1000
  const ESC_BUF_SIZE: nat := 4096

  method Clear(buf: array<byte>, n: nat)
    requires n <= buf.Length
    modifies buf
    ensures buf[..n] == Zeros(n) && buf[n..] == old(buf[n..])
  {
    for i := 0 to n
      invariant forall k :: 0 <= k < i ==> buf[k] == 0
      invariant forall k :: i <= k < buf.Length ==> buf[k] == old(buf[k])
    {
      buf[i] := 0;
    }
  }

  /** `GetBufSize`, and whether it complains. */
  method GetBufSize(buf: array<byte>, sz: nat) returns (size: nat)
    requires 0 < sz <= buf.Length
    ensures size == BufSize(buf[..sz])
  {
    ghost var s := buf[..sz];
    if buf[0] == STX {
      var i := sz;
      while i > 1
        invariant 1 <= i <= sz && SizeFrom(s, i, sz) == BufSize(s)
      {
        if buf[i - 1] == ETX {
          return i;
        }
        if buf[i - 1] != 0 {
          break;
        }
        i := i - 1;
      }
    }
    size := sz;
  }

  /** The running exclusive or over a stretch of bytes. */
  method XorOver(cks: byte, s: seq<byte>, ghost before: seq<byte>) returns (r: byte)
    requires cks == XorAll(before)
    ensures r == XorAll(before + s)
  {
    r := cks;
    assert before + s[..0] == before;
    for i := 0 to |s|
      invariant r == XorAll(before + s[..i])
    {
      assert (before + s[..i + 1])[..|before| + i] == before + s[..i];
      r := XorByte(r, s[i]);
    }
    assert before + s[..|s|] == before + s;
  }

  /** `CalcCheckSum`: the module number counts in replies only. */
  method CalcCheckSum(header: seq<byte>, mod: seq<byte>, reply: bool, payload: seq<byte>) returns (cks: byte)
    ensures cks == CheckSum(header + (if reply then mod else []) + payload)
  {
    cks := XorOver(0, header, []);
    ghost var done := [] + header;
    if reply {
      cks := XorOver(cks, mod, done);
      done := done + mod;
    }
    cks := XorOver(cks, payload, done);
    assert done + payload == header + (if reply then mod else []) + payload;
    if cks == 0 || cks == STX || cks == ETX {
      cks := cks + 0x0A;
    }
  }

  class Amplifier {
    const obuf: array<byte>
    var obufSize: nat
    const ibuf: array<byte>
    var ibufSize: nat
    const escBuf: array<byte>
    var escBufSize: nat

    ghost predicate Valid()
      reads this
    {
      && obuf.Length == OBUF_SIZE + 1 && ibuf.Length == IBUF_SIZE + 1 && escBuf.Length == ESC_BUF_SIZE
      && obuf != ibuf && obuf != escBuf && ibuf != escBuf
      && obufSize <= OBUF_SIZE + 1 && ibufSize <= IBUF_SIZE && escBufSize <= ESC_BUF_SIZE
    }

    constructor ()
      ensures Valid()
    {
      obuf := new byte[OBUF_SIZE + 1](_ => 0);
      ibuf := new byte[IBUF_SIZE + 1](_ => 0);
      escBuf := new byte[ESC_BUF_SIZE](_ => 0);
      obufSize, ibufSize, escBufSize := 0, 0, 0;
    }

    /** `EscapeOBuf`; the frame and its escapes must fit the output buffer. */
    method EscapeOBuf() returns (ok: bool)
      requires Valid()
      requires Framed(obuf[..obufSize]) ==> obufSize + Specials(Inside(obuf[..obufSize])) <= OBUF_SIZE + 1
      modifies this`obufSize, this`escBufSize, obuf, escBuf
      ensures Valid() && ok == Framed(old(obuf[..obufSize]))
      ensures ok ==> obuf[..obufSize] == Escape(old(obuf[..obufSize]))
      ensures !ok ==> obufSize == old(obufSize) && obuf[..] == old(obuf[..])
    {
      ok := obufSize > 0 && obuf[0] == STX && obuf[obufSize - 1] == ETX;
      if !ok {
        return;
      }
      ghost var f := obuf[..obufSize];
      EscapedLength(f);
      var j := EscapeInto(f);
      for i := 0 to j
        invariant escBuf[..j] == Escape(f) && forall k :: 0 <= k < i ==> obuf[k] == escBuf[k]
      {
        obuf[i] := escBuf[i];
      }
      assert obuf[..j] == escBuf[..j];
      escBufSize := j;
      obufSize := j;
    }

    method EscapeInto(ghost f: seq<byte>) returns (j: nat)
      requires Valid() && f == obuf[..obufSize] && Framed(f) && |Escape(f)| <= OBUF_SIZE + 1
      modifies escBuf
      ensures j == |Escape(f)| && escBuf[..j] == Escape(f)
    {
      hide EscapeBody, Encoded;
      ghost var inside := Inside(f);
      NothingEscaped(inside);
      Clear(escBuf, ESC_BUF_SIZE);
      escBuf[0] := STX;
      j := 1;
      assert escBuf[..1] == [STX] + [];
      for i := 1 to obufSize - 1
        invariant 1 <= j <= OBUF_SIZE && escBuf[..j] == [STX] + EscapeBody(inside[..i - 1])
      {
        EscapeGrows(inside, i);
        EscapeNext(inside, i - 1);
        assert inside[i - 1] == obuf[i];
        ghost var was := EscapeBody(inside[..i - 1]);
        j := PutEscaped(obuf[i], j);
        Associate(was, Encoded(obuf[i]));
      }
      assert inside[..|inside|] == inside;
      ghost var was := escBuf[..j];
      escBuf[j] := ETX;
      j := j + 1;
      assert escBuf[..j] == was + [ETX];
    }

    method PutEscaped(c: byte, j: nat) returns (n: nat)
      requires Valid() && j + |Encoded(c)| <= ESC_BUF_SIZE
      modifies escBuf
      ensures n == j + |Encoded(c)| && escBuf[..n] == old(escBuf[..j]) + Encoded(c)
    {
      if IsSpecial(c) {
        escBuf[j] := ESC;
        escBuf[j + 1] := Plus(c);
        n := j + 2;
      } else {
        escBuf[j] := c;
        n := j + 1;
      }
    }

    /** `UnEscapeIBuf`. */
    method UnEscapeIBuf() returns (ok: bool)
      requires Valid()
      modifies this`ibufSize, this`escBufSize, ibuf, escBuf
      ensures Valid() && ok == Framed(old(ibuf[..ibufSize]))
      ensures ok ==> ibuf[..ibufSize] == Unescape(old(ibuf[..ibufSize]))
      ensures !ok ==> ibufSize == old(ibufSize) && ibuf[..] == old(ibuf[..])
    {
      ok := ibufSize > 0 && ibuf[0] == STX && ibuf[ibufSize - 1] == ETX;
      if !ok {
        return;
      }
      var n := ibufSize;
      ghost var f := ibuf[..n];
      for i := 0 to n
        invariant escBuf[..i] == f[..i]
        modifies escBuf
      {
        escBuf[i] := ibuf[i];
        assert escBuf[..i + 1] == f[..i + 1];
      }
      escBufSize := n;
      assert escBuf[..escBufSize] == f;
      ibufSize := UnescapeFrom(f);
    }

    /** Part-way: what is written so far and what is still to come make up the result. */
    ghost predicate Unescaping(f: seq<byte>, i: nat, j: nat)
      reads this, ibuf, escBuf
    {
      && Valid() && Framed(f) && |f| == escBufSize && escBuf[..escBufSize] == f && 1 <= j <= i <= |f|
      && if i < |f| then ibuf[..j] + (UnescapeBody(Inside(f)[i - 1..]) + [ETX]) == Unescape(f)
         else j < i && ibuf[..j] + [ETX] == Unescape(f)
    }

    method UnescapeFrom(ghost f: seq<byte>) returns (j: nat)
      requires Valid() && escBuf[..escBufSize] == f && Framed(f) && escBufSize <= IBUF_SIZE
      modifies ibuf
      ensures j <= IBUF_SIZE && ibuf[..j] == Unescape(f)
    {
      hide UnescapeBody, Unescaping;
      Clear(ibuf, IBUF_SIZE);
      ibuf[0] := STX;
      j := 1;
      var i := 1;
      Starting(f);
      while i < escBufSize - 1
        invariant Unescaping(f, i, j) && i <= escBufSize
        decreases escBufSize - i
      {
        i, j := OneByte(f, i, j);
      }
      j := Closing(f, i, j);
    }

    lemma Starting(f: seq<byte>)
      requires Valid() && Framed(f) && |f| == escBufSize && escBuf[..escBufSize] == f && ibuf[0] == STX
      ensures Unescaping(f, 1, 1)
    {
      hide UnescapeBody;
      assert ibuf[..1] == [STX] && Inside(f)[0..] == Inside(f);
      assert [STX] + (UnescapeBody(Inside(f)) + [ETX]) == Unescape(f);
    }

    method Closing(ghost f: seq<byte>, i: nat, j: nat) returns (n: nat)
      requires Unescaping(f, i, j) && i >= escBufSize - 1 && escBufSize <= IBUF_SIZE
      modifies ibuf
      ensures n <= IBUF_SIZE && ibuf[..n] == Unescape(f)
    {
      hide UnescapeBody;
      NothingLeft();
      ghost var was := ibuf[..j];
      if i < escBufSize {
        assert Inside(f)[i - 1..] == [] && [] + [ETX] == [ETX];
      }
      ibuf[j] := ETX;
      n := j + 1;
      assert ibuf[..n] == was + [ETX];
    }

    method OneByte(ghost f: seq<byte>, i: nat, j: nat) returns (i': nat, j': nat)
      requires Unescaping(f, i, j) && i < escBufSize - 1
      modifies ibuf
      ensures Unescaping(f, i', j') && i < i' <= escBufSize
    {
      hide UnescapeBody;
      ghost var was, rest := ibuf[..j], Inside(f)[i - 1..];
      UnescapeNext(rest);
      assert rest[0] == f[i] == escBuf[i] && f[i + 1] == escBuf[i + 1];
      i' := i;
      if escBuf[i] == ESC {
        i' := i + 1;
        ibuf[j] := Minus(escBuf[i + 1]);
      } else {
        ibuf[j] := escBuf[i];
      }
      ghost var b := ibuf[j];
      j' := j + 1;
      i' := i' + 1;
      assert ibuf[..j'] == was + [b];
      if i' < escBufSize {
        ghost var next := Inside(f)[i' - 1..];
        assert next == if f[i] == ESC then rest[2..] else rest[1..];
        assert f[i] == ESC ==> rest[1] == f[i + 1];
        Regroup(was, b, UnescapeBody(next), [ETX]);
      } else {
        assert |rest| == 1 && was + ([b] + [ETX]) == was + [b] + [ETX];
      }
    }

    /** `Serialize`, the size found for it, and the escaping: what goes on the line for a request. */
    method PutRequest(p: Request)
      requires Valid() && 6 + |p.payload| <= OBUF_SIZE
      requires 6 + |p.payload| + Specials(Inside(RequestFrame(p))) <= OBUF_SIZE + 1
      modifies this`obufSize, this`escBufSize, obuf, escBuf
      ensures Valid() && obuf[..obufSize] == Escape(RequestFrame(p))
    {
      hide CheckSum, EscapeBody;
      var header := [STX, p.id0, p.id1, p.cmd];
      var cks := CalcCheckSum(header, [], false, p.payload);
      assert header + [] + p.payload == header + p.payload;
      Serialize(header, p.payload, cks);
      ghost var f := RequestFrame(p);
      assert obuf[..OBUF_SIZE] == f + Zeros(OBUF_SIZE - |f|);
      PaddedSize(f, OBUF_SIZE - |f|);
      obufSize := GetBufSize(obuf, OBUF_SIZE);
      assert obuf[..obufSize] == f by {
        assert obuf[..obufSize] == obuf[..OBUF_SIZE][..obufSize];
      }
      var ok := EscapeOBuf();
    }

    method Serialize(header: seq<byte>, payload: seq<byte>, cks: byte)
      requires Valid() && |header| == 4 && 6 + |payload| <= OBUF_SIZE
      modifies obuf
      ensures obuf[..OBUF_SIZE] == header + payload + [cks, ETX] + Zeros(OBUF_SIZE - 6 - |payload|)
    {
      Clear(obuf, OBUF_SIZE);
      ghost var z := obuf[..OBUF_SIZE];
      obuf[0], obuf[1], obuf[2], obuf[3] := header[0], header[1], header[2], header[3];
      var i := 4;
      for j := 0 to |payload|
        invariant i == 4 + j && (forall k :: 0 <= k < 4 ==> obuf[k] == header[k])
        invariant forall k :: 0 <= k < j ==> obuf[4 + k] == payload[k]
        invariant forall k :: 4 + j <= k < OBUF_SIZE ==> obuf[k] == z[k]
      {
        obuf[i] := payload[j];
        i := i + 1;
      }
      obuf[i] := cks;
      obuf[i + 1] := ETX;
    }
  }

  lemma Associate(was: seq<byte>, code: seq<byte>)
    ensures [STX] + was + code == [STX] + (was + code)
  {
  }

  lemma NothingEscaped(inside: seq<byte>)
    ensures EscapeBody(inside[..0]) == []
  {
  }

  lemma EscapeNext(s: seq<byte>, i: nat)
    requires i < |s|
    ensures EscapeBody(s[..i + 1]) == EscapeBody(s[..i]) + Encoded(s[i])
  {
    assert s[..i + 1][..i] == s[..i];
  }

  lemma {:induction false} EscapeGrows(s: seq<byte>, i: nat)
    requires i <= |s|
    ensures |EscapeBody(s[..i])| <= |EscapeBody(s)|
    decreases |s| - i
  {
    if i < |s| {
      EscapeNext(s, i);
      EscapeGrows(s, i + 1);
    } else {
      assert s[..i] == s;
    }
  }

  lemma Regroup(was: seq<byte>, b: byte, u: seq<byte>, e: seq<byte>)
    ensures was + (([b] + u) + e) == was + [b] + (u + e)
  {
  }

  lemma UnescapeNext(s: seq<byte>)
    requires s != []
    ensures UnescapeBody(s) == if s[0] != ESC then [s[0]] + UnescapeBody(s[1..])
                               else if |s| == 1 then [Minus(ETX)] else [Minus(s[1])] + UnescapeBody(s[2..])
  {
  }

  lemma NothingLeft()
    ensures UnescapeBody([]) == []
  {
  }
}
