/** The Adler-32 checksum of include/adler32.h: sums reduced once a block against the byte-by-byte
    definition of sections 2.2 and 8.2 of RFC 1950. */
module Adler {
  import opened Bytes

  const BASE: nat := 65521
  const NMAX: nat := 5552

  /** An unsigned long of 32 bits: every sum kept in one is shown not to overflow it. */
  type ulong = x: nat | x <= 0xFFFF_FFFF

  datatype Sums = Sums(s1: nat, s2: nat)

  // ----- the definition -----

  function Step(s: Sums, b: byte): Sums {
    var s1 := (s.s1 + b) % BASE;
    Sums(s1, (s.s2 + s1) % BASE)
  }

  function Update(s: Sums, data: seq<byte>): Sums {
    if data == [] then s else Step(Update(s, data[..|data| - 1]), data[|data| - 1])
  }

  function Split(adler: nat): Sums {
    Sums(adler % 65536, adler / 65536 % 65536)
  }

  function Join(s: Sums): nat {
    s.s2 * 65536 + s.s1
  }

  /** `update_adler32` of RFC 1950, section 8.2. */
  function Checksum(adler: ulong, data: seq<byte>): nat {
    Join(Update(Split(adler), data))
  }

  lemma {:induction false} UpdateJoin(s: Sums, a: seq<byte>, b: seq<byte>)
    ensures Update(s, a + b) == Update(Update(s, a), b)
  {
    if b == [] {
      assert a + b == a;
    } else {
      assert (a + b)[..|a + b| - 1] == a + b[..|b| - 1];
      UpdateJoin(s, a, b[..|b| - 1]);
    }
  }

  lemma {:induction false} UpdateSmall(s: Sums, data: seq<byte>)
    requires s.s1 < 65536 && s.s2 < 65536
    ensures Update(s, data).s1 < 65536 && Update(s, data).s2 < 65536
    ensures data != [] ==> Update(s, data).s1 < BASE && Update(s, data).s2 < BASE
  {
    if data != [] {
      UpdateSmall(s, data[..|data| - 1]);
    }
  }

  lemma SplitJoin(s: Sums)
    requires s.s1 < 65536 && s.s2 < 65536
    ensures Split(Join(s)) == s && Join(s) <= 0xFFFF_FFFF
  {
  }

  /** A running checksum: continuing from a checksum is checksumming the concatenation, whatever the seed. */
  lemma ChecksumContinues(adler: ulong, x: seq<byte>, y: seq<byte>)
    ensures Checksum(adler, x) <= 0xFFFF_FFFF
    ensures Checksum(Checksum(adler, x), y) == Checksum(adler, x + y)
  {
    UpdateSmall(Split(adler), x);
    SplitJoin(Update(Split(adler), x));
    UpdateJoin(Split(adler), x, y);
  }

  function Sum(data: seq<byte>): nat {
    if data == [] then 0 else Sum(data[..|data| - 1]) + data[|data| - 1]
  }

  /** Each byte as often as it is counted: the last once, the one before it twice. */
  function Weighted(data: seq<byte>): nat {
    if data == [] then 0 else Weighted(data[..|data| - 1]) + Sum(data)
  }

  lemma {:induction false} WeightedIs(data: seq<byte>, first: byte)
    ensures Sum([first] + data) == first + Sum(data)
    ensures Weighted([first] + data) == (|data| + 1) * first + Weighted(data)
  {
    if data == [] {
      assert [first][..0] == [];
      assert [first] + data == [first];
    } else {
      var n := |data| - 1;
      assert ([first] + data)[..|data|] == [first] + data[..n];
      WeightedIs(data[..n], first);
    }
  }

  /** The sums in closed form: the bytes, and each byte by its distance from the end, on top of the seed. */
  lemma {:induction false} SumsMean(s: Sums, data: seq<byte>)
    ensures Raw(s, data) == Sums(s.s1 + Sum(data), s.s2 + |data| * s.s1 + Weighted(data))
    ensures data != [] ==>
              Update(s, data) == Sums((s.s1 + Sum(data)) % BASE, (s.s2 + |data| * s.s1 + Weighted(data)) % BASE)
  {
    if data != [] {
      SumsMean(s, data[..|data| - 1]);
      assert (|data| - 1) * s.s1 + s.s1 == |data| * s.s1;
      RawMeans(s, data);
      ReducedOnce(s, data);
    }
  }

  /** So the checksum of a buffer, started from 1. */
  lemma ChecksumMeans(data: seq<byte>)
    ensures Checksum(1, data) == 65536 * ((|data| + Weighted(data)) % 65521) + (1 + Sum(data)) % 65521
  {
    hide Update, Raw, Weighted, Sum;
    SumsMean(Sums(1, 0), data);
    if data == [] {
      NothingToSum();
    }
  }

  lemma NothingToSum()
    ensures Update(Sums(1, 0), []) == Sums(1, 0) && Sum([]) == 0 && Weighted([]) == 0
  {
  }

  lemma RawMeans(s: Sums, data: seq<byte>)
    requires data != []
    requires var rest := data[..|data| - 1];
             Raw(s, rest) == Sums(s.s1 + Sum(rest), s.s2 + |rest| * s.s1 + Weighted(rest))
    requires (|data| - 1) * s.s1 + s.s1 == |data| * s.s1
    ensures Raw(s, data) == Sums(s.s1 + Sum(data), s.s2 + |data| * s.s1 + Weighted(data))
  {
  }

  // ----- deferred reduction -----

  /** The sums of a block before they are reduced. */
  function Raw(s: Sums, data: seq<byte>): Sums {
    if data == [] then s
    else
      var r := Raw(s, data[..|data| - 1]);
      Sums(r.s1 + data[|data| - 1], r.s2 + r.s1 + data[|data| - 1])
  }

  function Reduced(s: Sums): Sums {
    Sums(s.s1 % BASE, s.s2 % BASE)
  }

  lemma {:induction false} RawJoin(s: Sums, a: seq<byte>, b: seq<byte>)
    ensures Raw(s, a + b) == Raw(Raw(s, a), b)
  {
    if b == [] {
      assert a + b == a;
    } else {
      assert (a + b)[..|a + b| - 1] == a + b[..|b| - 1];
      RawJoin(s, a, b[..|b| - 1]);
    }
  }

  lemma ModAdd(x: nat, y: nat)
    ensures (x % BASE + y) % BASE == (x + y) % BASE
  {
  }

  /** Reducing once at the end of a block is reducing at every byte. */
  lemma {:induction false} ReducedOnce(s: Sums, data: seq<byte>)
    requires data != []
    ensures Update(s, data) == Reduced(Raw(s, data))
  {
    var rest, b := data[..|data| - 1], data[|data| - 1];
    if rest == [] {
      ModAdd(s.s1 + b, s.s2);
    } else {
      ReducedOnce(s, rest);
      ReducedStep(Raw(s, rest), b);
    }
  }

  lemma ReducedStep(r: Sums, b: byte)
    ensures var t := Sums(r.s1 % BASE, r.s2 % BASE);
            && (t.s1 + b) % BASE == (r.s1 + b) % BASE
            && (t.s2 + (t.s1 + b) % BASE) % BASE == (r.s2 + r.s1 + b) % BASE
  {
    ModAdd(r.s1, b);
    ModAdd(r.s2, (r.s1 + b) % BASE);
    ModAdd(r.s1 + b, r.s2);
  }

  /** The largest s2 after j bytes of a block, from any 16-bit sums. */
  function Cap(j: nat): nat {
    if j == 0 then 65535 else Cap(j - 1) + 65535 + 255 * j
  }

  lemma {:induction false} CapIs(j: nat)
    ensures 2 * Cap(j) == 131070 + 131070 * j + 255 * j * (j + 1)
  {
    if j > 0 {
      CapIs(j - 1);
    }
  }

  lemma {:induction false} CapGrows(j: nat, k: nat)
    requires j <= k
    ensures Cap(j) <= Cap(k)
  {
    if j < k {
      CapGrows(j, k - 1);
    }
  }

  /** NMAX bytes are safe, even from sums not reduced modulo BASE. */
  lemma NmaxIsSafe(j: nat)
    requires j <= NMAX
    ensures Cap(j) <= 0xFFFF_FFFF && 65535 + 255 * j <= 0xFFFF_FFFF
  {
    CapGrows(j, NMAX);
    CapIs(NMAX);
  }

  /** For sums reduced modulo BASE it is the largest number that is safe for all bytes. */
  lemma NmaxIsLargest(n: nat)
    ensures 255 * n * (n + 1) / 2 + (n + 1) * (BASE - 1) <= 0xFFFF_FFFF <==> n <= NMAX
  {
    var square := n * (n + 1);
    Associate(n);
    if n > NMAX {
      ProductGrows(NMAX + 1, n);
    } else {
      ProductGrows(n, NMAX);
    }
    LargestOfProduct(n, square);
  }

  lemma Associate(n: nat)
    ensures 255 * n * (n + 1) == 255 * (n * (n + 1))
  {
  }

  lemma {:induction false} ProductGrows(a: nat, b: nat)
    requires a <= b
    ensures a * (a + 1) <= b * (b + 1)
  {
    if a < b {
      ProductGrows(a, b - 1);
      assert b * (b + 1) == (b - 1) * b + 2 * b;
    }
  }

  /** What is left is linear. */
  lemma LargestOfProduct(n: nat, square: nat)
    requires n <= NMAX ==> square <= NMAX * (NMAX + 1)
    requires n > NMAX ==> square >= (NMAX + 1) * (NMAX + 2)
    ensures 255 * square / 2 + (n + 1) * (BASE - 1) <= 0xFFFF_FFFF <==> n <= NMAX
  {
  }

  /** The sums after j bytes of a block. */
  predicate Within(s1: nat, s2: nat, j: nat) {
    s1 <= 65535 + 255 * j && s2 <= Cap(j)
  }

  // ----- the code -----

  method Do1(buf: array<byte>, at: nat, s1: ulong, s2: ulong, ghost j: nat) returns (t1: ulong, t2: ulong)
    requires at < buf.Length && Within(s1, s2, j) && j + 1 <= NMAX
    ensures Sums(t1, t2) == Raw(Sums(s1, s2), buf[at..at + 1]) && Within(t1, t2, j + 1)
  {
    NmaxIsSafe(j + 1);
    t1 := s1 + buf[at];
    t2 := s2 + t1;
    OneByte(Sums(s1, s2), buf[at..at + 1]);
  }

  lemma OneByte(s: Sums, data: seq<byte>)
    requires |data| == 1
    ensures Raw(s, data) == Sums(s.s1 + data[0], s.s2 + s.s1 + data[0])
  {
  }

  method Do2(buf: array<byte>, at: nat, s1: ulong, s2: ulong, ghost j: nat) returns (t1: ulong, t2: ulong)
    requires at + 2 <= buf.Length && Within(s1, s2, j) && j + 2 <= NMAX
    ensures Sums(t1, t2) == Raw(Sums(s1, s2), buf[at..at + 2]) && Within(t1, t2, j + 2)
  {
    t1, t2 := Do1(buf, at, s1, s2, j);
    t1, t2 := Do1(buf, at + 1, t1, t2, j + 1);
    Halves(buf, Sums(s1, s2), at, at + 1, at + 2);
  }

  lemma Halves(buf: array<byte>, s: Sums, a: nat, b: nat, c: nat)
    requires a <= b <= c <= buf.Length
    ensures Raw(s, buf[a..c]) == Raw(Raw(s, buf[a..b]), buf[b..c])
  {
    assert buf[a..c] == buf[a..b] + buf[b..c];
    RawJoin(s, buf[a..b], buf[b..c]);
  }

  method Do4(buf: array<byte>, at: nat, s1: ulong, s2: ulong, ghost j: nat) returns (t1: ulong, t2: ulong)
    requires at + 4 <= buf.Length && Within(s1, s2, j) && j + 4 <= NMAX
    ensures Sums(t1, t2) == Raw(Sums(s1, s2), buf[at..at + 4]) && Within(t1, t2, j + 4)
  {
    t1, t2 := Do2(buf, at, s1, s2, j);
    t1, t2 := Do2(buf, at + 2, t1, t2, j + 2);
    Halves(buf, Sums(s1, s2), at, at + 2, at + 4);
  }

  method Do8(buf: array<byte>, at: nat, s1: ulong, s2: ulong, ghost j: nat) returns (t1: ulong, t2: ulong)
    requires at + 8 <= buf.Length && Within(s1, s2, j) && j + 8 <= NMAX
    ensures Sums(t1, t2) == Raw(Sums(s1, s2), buf[at..at + 8]) && Within(t1, t2, j + 8)
  {
    t1, t2 := Do4(buf, at, s1, s2, j);
    t1, t2 := Do4(buf, at + 4, t1, t2, j + 4);
    Halves(buf, Sums(s1, s2), at, at + 4, at + 8);
  }

  method Do16(buf: array<byte>, at: nat, s1: ulong, s2: ulong, ghost j: nat) returns (t1: ulong, t2: ulong)
    requires at + 16 <= buf.Length && Within(s1, s2, j) && j + 16 <= NMAX
    ensures Sums(t1, t2) == Raw(Sums(s1, s2), buf[at..at + 16]) && Within(t1, t2, j + 16)
  {
    t1, t2 := Do8(buf, at, s1, s2, j);
    t1, t2 := Do8(buf, at + 8, t1, t2, j + 8);
    Halves(buf, Sums(s1, s2), at, at + 8, at + 16);
  }

  lemma NothingYet(s1: nat, s2: nat)
    requires s1 < 65536 && s2 < 65536
    ensures Raw(Sums(s1, s2), []) == Sums(s1, s2) && Within(s1, s2, 0)
  {
  }

  /** One block of at most NMAX bytes: sixteen at a time, then one at a time. */
  method Block(buf: array<byte>, start: nat, n: nat, s1: ulong, s2: ulong) returns (t1: ulong, t2: ulong)
    requires start + n <= buf.Length && 0 < n <= NMAX && s1 < 65536 && s2 < 65536
    ensures Sums(t1, t2) == Update(Sums(s1, s2), buf[start..start + n])
  {
    hide Update, Raw, Within;
    var k, at := n, start;
    t1, t2 := s1, s2;
    ghost var s := Sums(s1, s2);
    assert buf[start..start] == [];
    NothingYet(s1, s2);
    while k >= 16
      invariant start <= at && at + k == start + n && Within(t1, t2, at - start)
      invariant Sums(t1, t2) == Raw(s, buf[start..at])
    {
      Halves(buf, s, start, at, at + 16);
      t1, t2 := Do16(buf, at, t1, t2, at - start);
      at := at + 16;
      k := k - 16;
    }
    while k != 0
      invariant start <= at && at + k == start + n && Within(t1, t2, at - start)
      invariant Sums(t1, t2) == Raw(s, buf[start..at])
    {
      Halves(buf, s, start, at, at + 1);
      t1, t2 := Do1(buf, at, t1, t2, at - start);
      at := at + 1;
      k := k - 1;
    }
    ReducedOnce(s, buf[start..start + n]);
    t1 := t1 % BASE;
    t2 := t2 % BASE;
  }

  /** `zlib_adler32`: no buffer gives the initial value. */
  method ZlibAdler32(adler: ulong, buf: array?<byte>, n: nat) returns (r: ulong)
    requires buf != null ==> n <= buf.Length
    ensures r == if buf == null then 1 else Checksum(adler, buf[..n])
  {
    if buf == null {
      return 1;
    }
    hide Update;
    var s1: ulong, s2: ulong := adler % 65536, adler / 65536 % 65536;
    var len, at := n, 0;
    ghost var seed := Split(adler);
    assert buf[..0] == [];
    NoBytes(seed);
    while len > 0
      invariant 0 <= len && 0 <= at && at + len == n && s1 < 65536 && s2 < 65536
      invariant Sums(s1, s2) == Update(seed, buf[..at])
    {
      var k := if len < NMAX then len else NMAX;
      len := len - k;
      assert buf[..at + k] == buf[..at] + buf[at..at + k];
      UpdateJoin(seed, buf[..at], buf[at..at + k]);
      UpdateSmall(Sums(s1, s2), buf[at..at + k]);
      s1, s2 := Block(buf, at, k, s1, s2);
      at := at + k;
    }
    SplitJoin(Sums(s1, s2));
    r := s2 * 65536 + s1;
  }

  lemma NoBytes(s: Sums)
    ensures Update(s, []) == s
  {
  }
}
