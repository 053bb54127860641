/** The paged memory: pages are allocated, zeroed, when first touched, and a transfer that
    crosses a page boundary is split there, recursively. The place in a page's buffer is kept
    in 32 bits, which shows on pages above 4 GiB. */
module PagedMemory {
  import opened Bits
  import opened FlatBytes

  /** Addresses are uint64_t. */
  const ADDRESSES: nat := 0x1_0000_0000_0000_0000

  /** The place in a page buffer is kept in an unsigned int. */
  const OFFSETS: nat := 0x1_0000_0000

  /** page_align: the address with the page offset masked off, in 64 bits. */
  function PageAlign(pageBits: nat, addr: nat): (r: nat)
    requires pageBits <= 64 && addr < ADDRESSES
    ensures r == PageBase(Pow2(pageBits), addr)
  {
    AlignMask(pageBits, addr);
    And(addr, ADDRESSES - Pow2(pageBits))
  }

  lemma AlignMask(pageBits: nat, addr: nat)
    requires pageBits <= 64 && addr < ADDRESSES
    ensures Pow2(pageBits) <= ADDRESSES
    ensures And(addr, ADDRESSES - Pow2(pageBits)) == addr / Pow2(pageBits) * Pow2(pageBits)
  {
    hide Pow2, And;
    var p, q := Pow2(pageBits), Pow2(64 - pageBits);
    Pow2At64();
    Pow2Monotone(pageBits, 64);
    Pow2Add(64 - pageBits, pageBits);
    AndFieldMask(addr, 64 - pageBits, pageBits);
    assert (q - 1) * p == q * p - p;
    QuotientSmall(addr, p, q);
  }

  lemma QuotientSmall(a: nat, p: nat, q: nat)
    requires p > 0 && q > 0 && a < q * p
    ensures a / p % q == a / p
  {
    DivMod(a, p);
    if a / p >= q {
      MulLe(q, a / p, p);
    }
    DivModUnique(a / p, q, 0, a / p);
  }

  /** The page an address lies in, and its place in that page. */
  function PageBase(pageSize: nat, a: nat): nat
    requires pageSize > 0
  {
    a / pageSize * pageSize
  }

  function PageOffset(pageSize: nat, a: nat): (r: nat)
    requires pageSize > 0
    ensures r < pageSize
  {
    a % pageSize
  }

  /** Number of pages a transfer of len bytes touches. */
  function PagesTouched(pageSize: nat, addr: nat, len: nat): int
    requires pageSize > 0 && len > 0
  {
    (addr + len - 1) / pageSize - addr / pageSize + 1
  }

  /** Bases of the pages a transfer touches. */
  ghost function TouchedPages(pageSize: nat, addr: nat, len: nat): set<nat>
    requires pageSize > 0
  {
    set a | addr <= a < addr + len :: PageBase(pageSize, a)
  }

  lemma PageFacts(pageSize: nat, a: nat)
    requires pageSize > 0
    ensures a == PageBase(pageSize, a) + PageOffset(pageSize, a)
    ensures PageOffset(pageSize, PageBase(pageSize, a)) == 0
  {
    DivMod(a, pageSize);
    DivModUnique(PageBase(pageSize, a), pageSize, a / pageSize, 0);
  }

  lemma BasesDiffer(d: nat, q: nat, r: nat)
    requires d > 0 && q != r
    ensures q * d != r * d
  {
    if q < r {
      MulLe(q + 1, r, d);
    } else {
      MulLe(r + 1, q, d);
    }
  }

  /** An address within a page of a later one, counted from the first one's offset, shares
      its page. */
  lemma SamePage(pageSize: nat, addr: nat, a: nat)
    requires pageSize > 0 && addr <= a && PageOffset(pageSize, addr) + (a - addr) < pageSize
    ensures PageBase(pageSize, a) == PageBase(pageSize, addr)
    ensures a / pageSize == addr / pageSize
  {
    DivMod(addr, pageSize);
    DivModUnique(a, pageSize, addr / pageSize, addr % pageSize + (a - addr));
  }

  /** The end of a transfer that runs past its page lies on a later page. */
  lemma LaterPage(pageSize: nat, addr: nat, a: nat)
    requires pageSize > 0 && addr <= a && pageSize <= PageOffset(pageSize, addr) + (a - addr)
    ensures PageBase(pageSize, a) != PageBase(pageSize, addr)
    ensures a / pageSize > addr / pageSize
  {
    DivMod(addr, pageSize);
    DivMod(a, pageSize);
    var q, q' := addr / pageSize, a / pageSize;
    if q' <= q {
      MulLe(q', q, pageSize);
    }
    BasesDiffer(pageSize, q, q');
  }

  /** What splitting at the page boundary gives: a first part inside its page and a rest that
      touches one page less. */
  lemma SplitFacts(pageSize: nat, addr: nat, len: nat)
    requires pageSize > 0 && len > 0
    ensures if PageBase(pageSize, addr) != PageBase(pageSize, addr + len - 1) then
              var c := pageSize - PageOffset(pageSize, addr);
              && 0 < c < len
              && PagesTouched(pageSize, addr, c) == 1
              && PagesTouched(pageSize, addr, len) == 1 + PagesTouched(pageSize, addr + c, len - c) > 1
            else
              PageOffset(pageSize, addr) + len <= pageSize && PagesTouched(pageSize, addr, len) == 1
  {
    var c := pageSize - PageOffset(pageSize, addr);
    if c < len {
      LaterPage(pageSize, addr, addr + len - 1);
      SamePage(pageSize, addr, addr + c - 1);
      NextPage(pageSize, addr);
    } else {
      SamePage(pageSize, addr, addr + len - 1);
    }
  }

  /** The second part of a split transfer starts on the next page. */
  lemma NextPage(pageSize: nat, addr: nat)
    requires pageSize > 0
    ensures (addr + (pageSize - PageOffset(pageSize, addr))) / pageSize == addr / pageSize + 1
  {
    DivMod(addr, pageSize);
    DivModUnique(addr + (pageSize - addr % pageSize), pageSize, addr / pageSize + 1, 0);
  }

  /** An empty transfer's end, addr - 1, is computed in 64 bits. It lies on another page, so
      that the transfer would be split in two, exactly when addr is the start of a page; the
      contracts below are for transfers of at least one byte. */
  lemma EmptyTransferSplitsIff(pageBits: nat, addr: nat)
    requires pageBits < 64 && addr < ADDRESSES
    ensures var end := if addr == 0 then ADDRESSES - 1 else addr - 1;
      PageAlign(pageBits, addr) != PageAlign(pageBits, end)
      <==> PageOffset(Pow2(pageBits), addr) == 0
  {
    hide Pow2, PageAlign;
    var size := Pow2(pageBits);
    if addr == 0 {
      PageBelowSpace(pageBits);
      DivModUnique(0, size, 0, 0);
      LaterPage(size, 0, ADDRESSES - 1);
    } else if PageOffset(size, addr) > 0 {
      PreviousByte(size, addr);
    } else {
      PageFacts(size, addr - 1);
      PageFacts(size, addr);
    }
  }

  lemma PageBelowSpace(pageBits: nat)
    requires pageBits < 64
    ensures Pow2(pageBits) < ADDRESSES
  {
    Pow2At64();
    Pow2Monotone(pageBits, 63);
  }

  lemma PreviousByte(pageSize: nat, addr: nat)
    requires pageSize > 0 && PageOffset(pageSize, addr) > 0
    ensures addr > 0 && PageBase(pageSize, addr - 1) == PageBase(pageSize, addr)
  {
    DivMod(addr, pageSize);
    DivModUnique(addr - 1, pageSize, addr / pageSize, addr % pageSize - 1);
  }

  // ---- Transfers in a page buffer ----------------------------------------------------

  /** The place in its page's buffer that a copy for this address starts at, and the address
      that place belongs to. */
  function BufferOffset(pageSize: nat, addr: nat): nat
    requires pageSize > 0
  {
    PageOffset(pageSize, addr) % OFFSETS
  }

  function BufferAddr(pageSize: nat, addr: nat): nat
    requires pageSize > 0
  {
    PageBase(pageSize, addr) + BufferOffset(pageSize, addr)
  }

  /** How many of a transfer's bytes lie on its first page. */
  function FirstPart(pageSize: nat, addr: nat, len: nat): (c: nat)
    requires pageSize > 0
    ensures c <= len
  {
    var room := pageSize - PageOffset(pageSize, addr);
    if len < room then len else room
  }

  /** What a transfer reads and writes: its first page's part where the buffer offset says,
      the rest in place, as those parts start their pages. */
  ghost function PagedRead(pageSize: nat, m: Flat, addr: nat, len: nat): seq<Byte>
    requires pageSize > 0 && Total(m)
  {
    var c := FirstPart(pageSize, addr, len);
    ReadBytes(m, BufferAddr(pageSize, addr), c) + ReadBytes(m, addr + c, len - c)
  }

  ghost function PagedWrite(pageSize: nat, m: Flat, addr: nat, data: seq<Byte>): (r: Flat)
    requires pageSize > 0 && Total(m)
    ensures Total(r)
  {
    var c := FirstPart(pageSize, addr, |data|);
    WriteBytes(WriteBytes(m, BufferAddr(pageSize, addr), data[..c]), addr + c, data[c..])
  }

  /** A buffer place lies on the address's own page, at or before the address. */
  lemma BufferAddrFacts(pageSize: nat, addr: nat)
    requires pageSize > 0
    ensures var b := BufferAddr(pageSize, addr);
      && b <= addr
      && PageBase(pageSize, b) == PageBase(pageSize, addr)
      && PageOffset(pageSize, b) == BufferOffset(pageSize, addr) <= PageOffset(pageSize, addr)
    ensures BufferAddr(pageSize, addr) == addr <==> PageOffset(pageSize, addr) < OFFSETS
  {
    var o := PageOffset(pageSize, addr);
    DivMod(o, OFFSETS);
    DivMod(addr, pageSize);
    DivModUnique(BufferAddr(pageSize, addr), pageSize, addr / pageSize, o % OFFSETS);
  }

  /** A transfer whose page offset fits 32 bits is a transfer of the flat memory. */
  lemma FlatTransfer(pageSize: nat, m: Flat, addr: nat, data: seq<Byte>)
    requires pageSize > 0 && Total(m) && PageOffset(pageSize, addr) < OFFSETS
    ensures PagedWrite(pageSize, m, addr, data) == WriteBytes(m, addr, data)
    ensures PagedRead(pageSize, m, addr, |data|) == ReadBytes(m, addr, |data|)
  {
    hide PageBase, PageOffset, BufferAddr, BufferOffset, FirstPart, ReadBytes, WriteBytes;
    BufferAddrFacts(pageSize, addr);
    WriteSplit(m, addr, data, FirstPart(pageSize, addr, |data|));
    ReadSplit(m, addr, |data|, FirstPart(pageSize, addr, |data|));
  }

  ghost predicate ReadsFlat(pageSize: nat, addr: nat, len: nat)
    requires pageSize > 0
  {
    forall m: Flat :: Total(m) ==> PagedRead(pageSize, m, addr, len) == ReadBytes(m, addr, len)
  }

  ghost predicate WritesFlat(pageSize: nat, addr: nat, len: nat)
    requires pageSize > 0
  {
    forall m: Flat, data: seq<Byte> :: Total(m) && |data| == len ==>
      PagedWrite(pageSize, m, addr, data) == WriteBytes(m, addr, data)
  }

  /** Exactly the transfers whose page offset fits 32 bits move the bytes of their own
      addresses, reading and writing alike. */
  lemma FlatTransferIff(pageSize: nat, addr: nat, len: nat)
    requires pageSize > 0 && len > 0
    ensures ReadsFlat(pageSize, addr, len) <==> PageOffset(pageSize, addr) < OFFSETS
    ensures WritesFlat(pageSize, addr, len) <==> PageOffset(pageSize, addr) < OFFSETS
  {
    hide PagedRead, PagedWrite, ReadBytes, WriteBytes, PageOffset;
    if PageOffset(pageSize, addr) < OFFSETS {
      forall m: Flat, data: seq<Byte> | Total(m) && |data| == len
        ensures PagedWrite(pageSize, m, addr, data) == WriteBytes(m, addr, data)
        ensures PagedRead(pageSize, m, addr, len) == ReadBytes(m, addr, len)
      {
        FlatTransfer(pageSize, m, addr, data);
      }
      forall m: Flat | Total(m) ensures PagedRead(pageSize, m, addr, len) == ReadBytes(m, addr, len) {
        FlatTransfer(pageSize, m, addr, seq(len, _ => 0));
      }
    } else {
      MisplacedRead(pageSize, addr, len);
      MisplacedWrite(pageSize, addr, len);
    }
  }

  lemma MisplacedRead(pageSize: nat, addr: nat, len: nat)
    requires pageSize > 0 && len > 0 && PageOffset(pageSize, addr) >= OFFSETS
    ensures !ReadsFlat(pageSize, addr, len)
  {
    hide PageOffset, PageBase, BufferOffset, BufferAddr;
    BufferAddrFacts(pageSize, addr);
    var m := WriteBytes(Zeroed(), addr, [1]);
    assert PagedRead(pageSize, m, addr, len)[0] == m[BufferAddr(pageSize, addr)] == 0;
    assert ReadBytes(m, addr, len)[0] == 1;
  }

  lemma MisplacedWrite(pageSize: nat, addr: nat, len: nat)
    requires pageSize > 0 && len > 0 && PageOffset(pageSize, addr) >= OFFSETS
    ensures !WritesFlat(pageSize, addr, len)
  {
    hide PageOffset, PageBase, BufferOffset, BufferAddr;
    BufferAddrFacts(pageSize, addr);
    var data: seq<Byte> := seq(len, i => if i == 0 then 1 else 0);
    var m := Zeroed();
    assert PagedWrite(pageSize, m, addr, data)[addr] == 0;
    assert WriteBytes(m, addr, data)[addr] == 1;
  }

  /** Every address is placed right exactly for pages of at most 4 GiB. */
  lemma EveryAddressPlacedIff(pageBits: nat)
    requires pageBits < 64
    ensures (forall addr :: 0 <= addr < ADDRESSES ==> PageOffset(Pow2(pageBits), addr) < OFFSETS) <==> pageBits <= 32
  {
    hide PageOffset, Pow2;
    Pow2At32();
    if pageBits <= 32 {
      Pow2Monotone(pageBits, 32);
    } else {
      LargeOffset(pageBits);
    }
  }

  lemma LargeOffset(pageBits: nat)
    requires 32 < pageBits
    ensures PageOffset(Pow2(pageBits), OFFSETS) == OFFSETS
  {
    hide Pow2;
    Pow2At32();
    Pow2Double(32);
    Pow2Monotone(33, pageBits);
    DivModUnique(OFFSETS, Pow2(pageBits), 0, OFFSETS);
  }

  /** On larger pages address 2^32 shares address 0's byte: a byte written at 0 is read there. */
  lemma LargePagesAlias(pageBits: nat, m: Flat, b: Byte)
    requires 32 < pageBits && Total(m)
    ensures var size := Pow2(pageBits);
      PagedRead(size, PagedWrite(size, m, 0, [b]), OFFSETS, 1) == [b]
  {
    hide Pow2;
    var size := Pow2(pageBits);
    LargeOffset(pageBits);
    DivModUnique(0, size, 0, 0);
    PageFacts(size, OFFSETS);
    assert BufferAddr(size, 0) == 0 == BufferAddr(size, OFFSETS);
    assert FirstPart(size, 0, 1) == 1 == FirstPart(size, OFFSETS, 1);
  }

  class Page {
    const base: nat
    const data: array<Byte>

    constructor (base: nat, size: nat)
      ensures this.base == base && fresh(data) && data.Length == size
      ensures forall i :: 0 <= i < size ==> data[i] == 0
    {
      this.base := base;
      data := new Byte[size](_ => 0);
    }
  }

  class SparseMemory {
    const pageBits: nat
    const pageSize: nat
    var pageTable: map<nat, Page>

    ghost function Buffers(): set<object>
      reads this
    {
      set b | b in pageTable :: pageTable[b].data as object
    }

    /** Bases of the pages allocated so far. */
    ghost function Allocated(): set<nat>
      reads this
    {
      pageTable.Keys
    }

    ghost predicate Valid()
      reads this
    {
      pageBits < 64 && pageSize == Pow2(pageBits) && PagesOk()
    }

    /** Pages lie at page boundaries, know their base, have the page size, and do not share
        storage. */
    ghost predicate PagesOk()
      reads this
      requires pageSize > 0
    {
      && (forall b :: b in pageTable ==>
            && PageOffset(pageSize, b) == 0
            && pageTable[b].base == b && pageTable[b].data.Length == pageSize)
      && (forall b, c :: b in pageTable && c in pageTable && b != c ==> pageTable[b].data != pageTable[c].data)
    }

    /** The byte a reader finds at an address: pages not yet allocated read as zero. */
    ghost function ByteAt(a: nat): Byte
      reads this, Buffers()
      requires Valid()
    {
      var base := PageBase(pageSize, a);
      if base in pageTable then pageTable[base].data[PageOffset(pageSize, a)] else 0
    }

    ghost function View(): (m: Flat)
      reads this, Buffers()
      requires Valid()
      ensures Total(m)
    {
      imap a: nat | true :: ByteAt(a)
    }

    constructor (pageBits: nat)
      requires pageBits < 64
      ensures Valid() && Buffers() == {} && Allocated() == {} && View() == Zeroed()
      ensures this.pageBits == pageBits
    {
      this.pageBits := pageBits;
      this.pageSize := Pow2(pageBits);
      this.pageTable := map[];
    }

    /** An address below 4 GiB is placed right on pages of any size. */
    lemma LowAddressPlaced(addr: nat)
      requires Valid() && addr < OFFSETS
      ensures pageSize > 0 && PageOffset(pageSize, addr) < OFFSETS
    {
      hide Pow2, PageOffset, SparseMemory.PagesOk;
      PageFacts(pageSize, addr);
    }

    /** Finds the page of an address, allocating it zeroed when there is none. */
    method GetPage(addr: nat) returns (page: Page)
      requires Valid() && addr < ADDRESSES
      modifies this
      ensures Valid() && fresh(Buffers() - old(Buffers()))
      ensures View() == old(View())
      ensures var base := PageBase(pageSize, addr);
        && base in pageTable && page == pageTable[base]
        && Allocated() == old(Allocated()) + {base}
        && forall b :: b in old(pageTable) ==> pageTable[b] == old(pageTable)[b]
    {
      hide Pow2, PageAlign, PageBase, PageOffset;
      var base := PageAlign(pageBits, addr);
      if base in pageTable {
        return pageTable[base];
      }
      PageFacts(pageSize, addr);
      page := new Page(base, pageSize);
      pageTable := pageTable[base := page];
      forall a: nat ensures ByteAt(a) == old(ByteAt(a)) {
        PageFacts(pageSize, a);
      }
    }

    /** One bus transfer. Each byte moves to or from the page buffers as PagedRead and
        PagedWrite say, which is as in a flat memory, whatever pages are crossed, when the
        page offset fits 32 bits; the latency is charged once for each page touched; the pages
        touched, and no others, become allocated. A command that is neither read nor write
        fails, except that a transfer crossing a page boundary always reports success. */
    method BTransport(cmd: Command, addr: nat, data: seq<Byte>)
      returns (status: Status, out: seq<Byte>, latencies: nat)
      requires Valid() && |data| > 0 && addr + |data| <= ADDRESSES
      modifies this, Buffers()
      ensures Valid() && fresh(Buffers() - old(Buffers()))
      ensures View() == if cmd.Write? then PagedWrite(pageSize, old(View()), addr, data) else old(View())
      ensures out == if cmd.Read? then PagedRead(pageSize, old(View()), addr, |data|) else data
      ensures PageOffset(pageSize, addr) < OFFSETS ==>
        && View() == (if cmd.Write? then WriteBytes(old(View()), addr, data) else old(View()))
        && out == if cmd.Read? then ReadBytes(old(View()), addr, |data|) else data
      ensures latencies == if cmd.Ignore? then 0 else PagesTouched(pageSize, addr, |data|)
      ensures status == if cmd.Ignore? && PagesTouched(pageSize, addr, |data|) == 1 then GenericError else Ok
      ensures Allocated() == old(Allocated()) + TouchedPages(pageSize, addr, |data|)
      decreases |data|
    {
      hide Pow2, PageAlign, PageBase, PageOffset, WriteBytes, ReadBytes, TouchedPages, PagesTouched,
           SparseMemory.View, SparseMemory.ByteAt, SparseMemory.PagesOk, SparseMemory.Allocated,
           PagedRead, PagedWrite, BufferAddr;
      var start := PageAlign(pageBits, addr);
      var end := PageAlign(pageBits, addr + |data| - 1);
      SplitFacts(pageSize, addr, |data|);
      ghost var view0, pages0 := View(), Allocated();
      if start != end {
        var chunk := pageSize - PageOffset(pageSize, addr);
        TouchesSplit(pageSize, addr, |data|, chunk);
        var _, out1, n1 := BTransport(cmd, addr, data[..chunk]);
        SplitTransfer(pageSize, view0, addr, data, chunk);
        var _, out2, n2 := BTransport(cmd, addr + chunk, data[chunk..]);
        out, latencies, status := out1 + out2, n1 + n2, Ok;
        assert data[..chunk] + data[chunk..] == data;
        UnionAssoc(pages0, TouchedPages(pageSize, addr, chunk),
                   TouchedPages(pageSize, addr + chunk, |data| - chunk));
      } else {
        OnePageTransfer(pageSize, view0, addr, data);
        status, out, latencies := TransferInPage(cmd, addr, data);
      }
      if PageOffset(pageSize, addr) < OFFSETS {
        FlatTransfer(pageSize, view0, addr, data);
      }
    }

    /** A transfer inside one page. */
    method TransferInPage(cmd: Command, addr: nat, data: seq<Byte>)
      returns (status: Status, out: seq<Byte>, latencies: nat)
      requires Valid() && |data| > 0 && addr + |data| <= ADDRESSES
      requires PageOffset(pageSize, addr) + |data| <= pageSize
      modifies this, Buffers()
      ensures Valid() && fresh(Buffers() - old(Buffers()))
      ensures var at := BufferAddr(pageSize, addr);
        && View() == (if cmd.Write? then WriteBytes(old(View()), at, data) else old(View()))
        && out == if cmd.Read? then ReadBytes(old(View()), at, |data|) else data
      ensures latencies == if cmd.Ignore? then 0 else 1
      ensures status == if cmd.Ignore? then GenericError else Ok
      ensures Allocated() == old(Allocated()) + TouchedPages(pageSize, addr, |data|)
    {
      hide Pow2, PagesTouched, ReadBytes, WriteBytes, PageBase, PageOffset, SparseMemory.Allocated,
           SparseMemory.View, BufferAddr;
      TouchesOne(pageSize, addr, |data|);
      var page := GetPage(addr);
      out := data;
      match cmd
      case Read =>
        out := LoadFromPage(page, addr, |data|);
        return Ok, out, 1;
      case Write =>
        StoreInPage(page, addr, data);
        return Ok, out, 1;
      case Ignore =>
        return GenericError, out, 0;
    }

    /** The copy of a read out of its page, seen as a read of the flat memory. */
    method LoadFromPage(page: Page, addr: nat, len: nat) returns (out: seq<Byte>)
      requires Valid() && PageOffset(pageSize, addr) + len <= pageSize
      requires var base := PageBase(pageSize, addr); base in pageTable && page == pageTable[base]
      ensures out == ReadBytes(View(), BufferAddr(pageSize, addr), len)
    {
      hide Pow2, PagesTouched, PageBase, PageOffset, BufferAddr;
      ghost var at := BufferAddr(pageSize, addr);
      BufferAddrFacts(pageSize, addr);
      var offset := BufferOffset(pageSize, addr);
      out := page.data[offset..offset + len];
      forall i | 0 <= i < len ensures out[i] == View()[at + i] {
        SamePage(pageSize, at, at + i);
        PageFacts(pageSize, at);
        PageFacts(pageSize, at + i);
      }
    }

    /** The copy of a write into its page, seen as a write to the flat memory. */
    method StoreInPage(page: Page, addr: nat, data: seq<Byte>)
      requires Valid() && PageOffset(pageSize, addr) + |data| <= pageSize
      requires var base := PageBase(pageSize, addr); base in pageTable && page == pageTable[base]
      modifies page.data
      ensures View() == WriteBytes(old(View()), BufferAddr(pageSize, addr), data)
    {
      hide Pow2, PagesTouched, PageBase, PageOffset, BufferAddr;
      ghost var at := BufferAddr(pageSize, addr);
      BufferAddrFacts(pageSize, addr);
      var offset := BufferOffset(pageSize, addr);
      forall i | 0 <= i < |data| {
        page.data[offset + i] := data[i];
      }
      forall a: nat
        ensures ByteAt(a) == if at <= a < at + |data| then data[a - at] else old(ByteAt(a))
      {
        PageFacts(pageSize, at);
        PageFacts(pageSize, a);
        if at <= a < at + |data| {
          SamePage(pageSize, at, a);
        }
      }
    }
  }

  /** A transfer that stays on its page, and one split at the page's end, in the terms of
      PagedRead and PagedWrite. */
  lemma OnePageTransfer(pageSize: nat, m: Flat, addr: nat, data: seq<Byte>)
    requires pageSize > 0 && Total(m) && PageOffset(pageSize, addr) + |data| <= pageSize
    ensures PagedWrite(pageSize, m, addr, data) == WriteBytes(m, BufferAddr(pageSize, addr), data)
    ensures PagedRead(pageSize, m, addr, |data|) == ReadBytes(m, BufferAddr(pageSize, addr), |data|)
  {
    hide PageOffset, BufferAddr;
    assert data[..|data|] == data;
  }

  lemma SplitTransfer(pageSize: nat, m: Flat, addr: nat, data: seq<Byte>, c: nat)
    requires pageSize > 0 && Total(m) && c == pageSize - PageOffset(pageSize, addr) < |data|
    ensures PageOffset(pageSize, addr + c) == 0
    ensures PagedWrite(pageSize, m, addr, data)
         == WriteBytes(PagedWrite(pageSize, m, addr, data[..c]), addr + c, data[c..])
    ensures PagedRead(pageSize, m, addr, |data|)
         == PagedRead(pageSize, m, addr, c) + ReadBytes(m, addr + c, |data| - c)
  {
    hide PageOffset, BufferAddr, WriteBytes, ReadBytes;
    NextPageStarts(pageSize, addr);
    OnePageTransfer(pageSize, m, addr, data[..c]);
  }

  lemma NextPageStarts(pageSize: nat, addr: nat)
    requires pageSize > 0
    ensures PageOffset(pageSize, addr + (pageSize - PageOffset(pageSize, addr))) == 0
  {
    DivMod(addr, pageSize);
    DivModUnique(addr + (pageSize - PageOffset(pageSize, addr)), pageSize, addr / pageSize + 1, 0);
  }

  lemma TouchesOne(pageSize: nat, addr: nat, len: nat)
    requires pageSize > 0 && len > 0 && PageOffset(pageSize, addr) + len <= pageSize
    ensures TouchedPages(pageSize, addr, len) == {PageBase(pageSize, addr)}
  {
    assert PageBase(pageSize, addr) in TouchedPages(pageSize, addr, len);
    forall a | addr <= a < addr + len ensures PageBase(pageSize, a) == PageBase(pageSize, addr) {
      SamePage(pageSize, addr, a);
    }
  }

  lemma TouchesSplit(pageSize: nat, addr: nat, len: nat, c: nat)
    requires pageSize > 0 && c <= len
    ensures TouchedPages(pageSize, addr, len)
         == TouchedPages(pageSize, addr, c) + TouchedPages(pageSize, addr + c, len - c)
  {
    hide PageBase;
  }

  lemma UnionAssoc(a: set<nat>, b: set<nat>, c: set<nat>)
    ensures (a + b) + c == a + (b + c)
  {}
}
