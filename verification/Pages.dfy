/** The scatter list of a user buffer, one piece a page (cdcm/cdcmPciDmaLinux.c). */
module Pages {

  datatype Page = NullPage | Page(frame: nat)

  /** One entry: which page of the buffer's pages, where in it, how much of it. */
  datatype Piece = Piece(page: Page, offset: nat, length: int)

  function First(addr: nat, page: nat): nat
    requires page > 0
  {
    addr / page
  }

  function Last(addr: nat, size: nat, page: nat): int
    requires page > 0
  {
    (addr + size - 1) / page
  }

  /** `nr_pages`. */
  function Count(addr: nat, size: nat, page: nat): int
    requires page > 0
  {
    Last(addr, size, page) - First(addr, page) + 1
  }

  function Offset(addr: nat, page: nat, i: nat): nat
    requires page > 0
  {
    if i == 0 then addr % page else 0
  }

  function Tail(addr: nat, size: nat, page: nat): nat
    requires page > 0
  {
    1 + (addr + size - 1) % page
  }

  /** The length put in entry i. */
  function Length(addr: nat, size: nat, page: nat, i: nat): int
    requires page > 0
  {
    var n := Count(addr, size, page);
    if i == 0 then if n == 1 then Tail(addr, size, page) - Offset(addr, page, 0) else page - Offset(addr, page, 0)
    else if i == n - 1 then Tail(addr, size, page)
    else page
  }

  /** Where piece i begins in the user's address space. */
  function Address(addr: nat, page: nat, i: nat): nat
    requires page > 0
  {
    (First(addr, page) + i) * page + Offset(addr, page, i)
  }

  function Total(addr: nat, size: nat, page: nat, n: nat): int
    requires page > 0
  {
    if n == 0 then 0 else Total(addr, size, page, n - 1) + Length(addr, size, page, n - 1)
  }

  lemma DivIs(a: nat, page: nat)
    requires page > 0
    ensures (a / page) * page + a % page == a && a % page < page
  {
  }

  lemma DivMonotone(a: nat, b: nat, page: nat)
    requires page > 0 && a <= b
    ensures a / page <= b / page
  {
    DivIs(a, page);
    DivIs(b, page);
    var q, r := a / page, b / page;
    Times(q, r, page);
  }

  lemma {:induction false} Times(q: nat, r: nat, page: nat)
    ensures q > r ==> q * page >= r * page + page
  {
    if q > r {
      assert q * page == (q - 1) * page + page;
      Times(q - 1, r, page);
    }
  }

  /** The pieces partition the buffer: there is at least one; each is nonempty and stays within its page;
      the first begins where the buffer does, each begins where the one before it ends, and the last ends
      where the buffer does. */
  lemma PiecesPartition(addr: nat, size: nat, page: nat, i: nat)
    requires page > 0 && size >= 1 && i < Count(addr, size, page)
    ensures Length(addr, size, page, i) >= 1 && Offset(addr, page, i) + Length(addr, size, page, i) <= page
    ensures Address(addr, page, 0) == addr
    ensures var end := Address(addr, page, i) + Length(addr, size, page, i);
            end == if i + 1 < Count(addr, size, page) then Address(addr, page, i + 1) else addr + size
    ensures Count(addr, size, page) >= 1
  {
    var last := addr + size - 1;
    DivIs(addr, page);
    DivIs(last, page);
    DivMonotone(addr, last, page);
    var f := First(addr, page);
    assert (f + i + 1) * page == (f + i) * page + page;
    if i + 1 == Count(addr, size, page) {
      assert f + i == last / page;
    }
  }

  /** So the lengths add up to the size. */
  lemma {:induction false} LengthsSum(addr: nat, size: nat, page: nat, n: nat)
    requires page > 0 && size >= 1 && 1 <= n <= Count(addr, size, page)
    ensures addr + Total(addr, size, page, n) == if n < Count(addr, size, page) then Address(addr, page, n) else addr + size
  {
    PiecesPartition(addr, size, page, n - 1);
    if n > 1 {
      LengthsSum(addr, size, page, n - 1);
    }
  }

  /** The size must be checked by the caller: an empty buffer gets an empty piece or no page at all. */
  lemma NonemptyIff(addr: nat, size: nat, page: nat)
    requires page > 0 && addr + size >= 1
    ensures size >= 1 <==> Count(addr, size, page) >= 1 && Length(addr, size, page, 0) >= 1
  {
    if size >= 1 {
      DivMonotone(addr, addr + size - 1, page);
      PiecesPartition(addr, size, page, 0);
    } else {
      DivIs(addr, page);
      DivIs(addr - 1, page);
      DivMonotone(addr - 1, addr, page);
      if addr / page == (addr - 1) / page {
        assert addr % page == (addr - 1) % page + 1;
      }
    }
  }

  const ENOMEM: int := 12

  class DmaBuf {
    var uaddrl: nat
    var offset: nat
    var tail: nat
    var nrPages: int
    var fromDevice: bool
    var sglist: array<Piece>

    constructor ()
    {
      sglist := new Piece[0];
      fromDevice := false;
    }

    /** `cdcm_init_dmabuf`; a page size that is a power of two makes the masks quotients and remainders. */
    method Init(userbuf: nat, size: nat, write: bool, page: nat)
      requires page > 0 && userbuf + size >= 1
      modifies this
      ensures uaddrl == userbuf && offset == Offset(userbuf, page, 0) && tail == Tail(userbuf, size, page)
      ensures nrPages == Count(userbuf, size, page) && fromDevice == write && sglist == old(sglist)
    {
      uaddrl := userbuf;
      var first := uaddrl / page;
      var last := (uaddrl + size - 1) / page;
      offset := uaddrl % page;
      tail := 1 + (uaddrl + size - 1) % page;
      nrPages := last - first + 1;
      fromDevice := write;
    }

    /** `cdcm_map_user_pages` once the kernel has pinned what it could: `pinned` is what
        `get_user_pages` returned. A missing page, other than the first, ends the list there. */
    method MapUserPages(pinned: int, pages: seq<Page>, page: nat, ghost size: nat) returns (r: int, filled: nat)
      requires page > 0 && size >= 1 && offset == Offset(uaddrl, page, 0) && tail == Tail(uaddrl, size, page)
      requires nrPages == Count(uaddrl, size, page) && (pinned >= nrPages ==> |pages| >= nrPages)
      modifies this`sglist
      ensures r == if pinned < 0 then pinned else if pinned < nrPages then -ENOMEM else pinned
      ensures r < 0 || pinned < nrPages ==> filled == 0
      ensures pinned >= nrPages && pinned >= 0 ==>
                && 1 <= filled <= nrPages == sglist.Length
                && (filled < nrPages ==> pages[filled] == NullPage)
                && (forall i :: 0 < i < filled ==> pages[i] != NullPage)
                && forall i :: 0 <= i < filled ==>
                     sglist[i] == Piece(pages[i], Offset(uaddrl, page, i), Length(uaddrl, size, page, i))
    {
      PiecesExist(uaddrl, size, page);
      filled := 0;
      if pinned < 0 {
        return pinned, 0;
      }
      if pinned < nrPages {
        return -ENOMEM, 0;
      }
      r := pinned;
      sglist := new Piece[nrPages];
      var len: int := page - offset;
      if nrPages == 1 {
        len := tail - offset;
      }
      sglist[0] := Piece(pages[0], offset, len);
      filled := 1;
      while filled < nrPages && pages[filled] != NullPage
        invariant 1 <= filled <= nrPages == sglist.Length && fresh(sglist)
        invariant forall i :: 0 < i < filled ==> pages[i] != NullPage
        invariant forall i :: 0 <= i < filled ==>
                    sglist[i] == Piece(pages[i], Offset(uaddrl, page, i), Length(uaddrl, size, page, i))
      {
        if filled == nrPages - 1 {
          len := tail;
        } else {
          len := page;
        }
        sglist[filled] := Piece(pages[filled], 0, len);
        filled := filled + 1;
      }
    }
  }

  lemma PiecesExist(addr: nat, size: nat, page: nat)
    requires page > 0 && size >= 1
    ensures Count(addr, size, page) >= 1
  {
    DivMonotone(addr, addr + size - 1, page);
  }
}
