/** The TLM cache's address arithmetic: CacheParams and the masks and shifts of the cache
    and of its miss handlers, with the widths of their C++ types. */
module Geometry {
  import opened Bits

  /** num_sets and line_size are powers of two, as the constructor asserts; their logarithms
      are kept. The shifts of 32-bit values need index and offset to fit 31 bits. */
  datatype CacheParams = CacheParams(setBits: nat, lineBits: nat, ways: nat) {

    predicate Ok() {
      ways > 0 && setBits + lineBits < 32
    }

    function NumSets(): (r: nat)
      ensures r > 0
    {
      Pow2(setBits)
    }

    function LineSize(): (r: nat)
      ensures r > 0
    {
      Pow2(lineBits)
    }

    function OffsetMask(): nat {
      LineSize() - 1
    }

    function IndexMask(): nat {
      Shl(NumSets() - 1, lineBits, 32)
    }

    function Offset(addr: nat): (r: nat)
      ensures r < LineSize()
    {
      AndLowMask(addr, lineBits);
      And(addr, OffsetMask())
    }

    function Index(addr: nat): (r: nat)
      requires Ok()
      ensures r < NumSets()
    {
      IndexIsField(this, addr);
      Shr(And(addr, IndexMask()), lineBits)
    }

    function Tag(addr: nat): nat {
      Shr(addr, lineBits + setBits)
    }

    /** The victim's address in write_back, where the tag is a uint64_t. */
    function VictimAddr(tag: nat, index: nat): nat {
      Or(Shl(tag, setBits + lineBits, 64), Shl(index, lineBits, 32))
    }

    /** The address the miss handlers fetch from: the tag arrives as an unsigned int and is
        shifted as one. */
    function FetchAddr(tag: nat, index: nat): nat {
      Or(Shl(tag % Pow2(32), setBits + lineBits, 32), Shl(index, lineBits, 32))
    }
  }

  /** First byte of the line with this tag and index. */
  function LineBase(g: CacheParams, tag: nat, index: nat): nat {
    LineNo(g, tag, index) * g.LineSize()
  }

  function LineNo(g: CacheParams, tag: nat, index: nat): nat {
    tag * g.NumSets() + index
  }

  lemma IndexIsField(g: CacheParams, addr: nat)
    requires g.Ok()
    ensures Shr(And(addr, g.IndexMask()), g.lineBits) == addr / g.LineSize() % g.NumSets()
    ensures addr / g.LineSize() % g.NumSets() < g.NumSets()
  {
    var ones := g.NumSets() - 1;
    ShiftFits(ones, g.setBits, g.lineBits, 32);
    AndFieldMask(addr, g.setBits, g.lineBits);
    var field := addr / g.LineSize() % g.NumSets();
    DivModUnique(field * g.LineSize(), g.LineSize(), field, 0);
  }

  lemma TagIsQuotient(g: CacheParams, addr: nat)
    ensures Shr(addr, g.lineBits + g.setBits) == addr / g.LineSize() / g.NumSets()
  {
    Pow2Add(g.lineBits, g.setBits);
    DivDiv(addr, g.LineSize(), g.NumSets());
  }

  /** What the masks and shifts cut out of an address. */
  lemma FieldsAre(g: CacheParams, addr: nat)
    requires g.Ok()
    ensures g.Offset(addr) == addr % g.LineSize()
    ensures g.Index(addr) == addr / g.LineSize() % g.NumSets()
    ensures g.Tag(addr) == addr / g.LineSize() / g.NumSets()
  {
    AndLowMask(addr, g.lineBits);
    IndexIsField(g, addr);
    TagIsQuotient(g, addr);
  }

  /** A value of m bits shifted by n stays inside a register of m + n bits or more. */
  lemma ShiftFits(a: nat, m: nat, n: nat, width: nat)
    requires a < Pow2(m) && m + n <= width
    ensures a * Pow2(n) < Pow2(m + n) <= Pow2(width)
    ensures Shl(a, n, width) == a * Pow2(n)
  {
    MulLe(a + 1, Pow2(m), Pow2(n));
    Pow2Add(m, n);
    Pow2Monotone(m + n, width);
    DivModUnique(a * Pow2(n), Pow2(width), 0, a * Pow2(n));
  }

  /** The low `width` bits of a << n are the low bits of a, shifted. */
  lemma ShiftTruncates(a: nat, n: nat, width: nat)
    requires n <= width
    ensures Shl(a, n, width) == a % Pow2(width - n) * Pow2(n)
  {
    var p, q := Pow2(n), Pow2(width - n);
    Pow2Add(n, width - n);
    DivDiv(a * p, p, q);
    DivModUnique(a * p, p, a, 0);
  }

  lemma ModMod(a: nat, m: nat, n: nat)
    requires n <= m
    ensures a % Pow2(m) % Pow2(n) == a % Pow2(n)
  {
    var p, q := Pow2(n), Pow2(m - n);
    Pow2Add(n, m - n);
    DivDiv(a, p, q);
    DivModUnique(a % Pow2(m), p, a / p % q, a % p);
  }

  lemma IndexShift(g: CacheParams, index: nat)
    requires g.Ok() && index < g.NumSets()
    ensures Shl(index, g.lineBits, 32) == index * g.LineSize() < Pow2(g.setBits + g.lineBits)
  {
    ShiftFits(index, g.setBits, g.lineBits, 32);
  }

  lemma LineBaseParts(g: CacheParams, tag: nat, index: nat)
    ensures LineBase(g, tag, index) == tag * Pow2(g.setBits + g.lineBits) + index * g.LineSize()
  {
    hide Pow2;
    Pow2Add(g.setBits, g.lineBits);
    MulRegroup(tag, index, Pow2(g.setBits), Pow2(g.lineBits));
  }

  /** write_back rebuilds the line's address from any 64-bit tag. */
  lemma VictimAddrIsLineBase(g: CacheParams, tag: nat, index: nat)
    requires g.Ok() && index < g.NumSets()
    requires tag < Pow2(64 - (g.setBits + g.lineBits))
    ensures g.VictimAddr(tag, index) == LineBase(g, tag, index)
  {
    var k := g.setBits + g.lineBits;
    ShiftFits(tag, 64 - k, k, 64);
    IndexShift(g, index);
    OrDisjoint(tag, k, index * g.LineSize());
    LineBaseParts(g, tag, index);
  }

  /** The miss handlers keep only the tag bits that survive a 32-bit shift. */
  lemma FetchAddrTruncates(g: CacheParams, tag: nat, index: nat)
    requires g.Ok() && index < g.NumSets()
    ensures g.FetchAddr(tag, index)
         == LineBase(g, tag % Pow2(32 - (g.setBits + g.lineBits)), index)
  {
    hide Pow2, Or, Shl, LineBase;
    var k := g.setBits + g.lineBits;
    ShiftTruncates(tag % Pow2(32), k, 32);
    ModMod(tag, 32, 32 - k);
    IndexShift(g, index);
    OrDisjoint(tag % Pow2(32 - k), k, index * g.LineSize());
    LineBaseParts(g, tag % Pow2(32 - k), index);
  }

  /** An address is its line's base plus its offset. */
  lemma SplitJoin(g: CacheParams, addr: nat)
    requires g.Ok()
    ensures LineNo(g, g.Tag(addr), g.Index(addr)) == addr / g.LineSize()
    ensures LineBase(g, g.Tag(addr), g.Index(addr)) + g.Offset(addr) == addr
  {
    hide CacheParams.Tag, CacheParams.Index, CacheParams.Offset, CacheParams.LineSize, CacheParams.NumSets;
    FieldsAre(g, addr);
    DivMod(addr, g.LineSize());
    DivMod(addr / g.LineSize(), g.NumSets());
  }

  lemma TagFits(g: CacheParams, addr: nat, width: nat)
    requires g.Ok() && 32 <= width
    ensures g.Tag(addr) < Pow2(width - (g.setBits + g.lineBits)) <==> addr < Pow2(width)
  {
    hide CacheParams.Tag, Pow2;
    FieldsAre(g, addr);
    var k := g.lineBits + g.setBits;
    Pow2Add(width - k, k);
    Pow2Add(g.lineBits, g.setBits);
    DivDiv(addr, g.LineSize(), g.NumSets());
    QuotientBelow(addr, Pow2(k), Pow2(width - k));
  }

  /** The address a miss fetches is the line of the requested address exactly for addresses
      below 2^32; write_back is right for every 64-bit address. */
  lemma FetchesOwnLineIff(g: CacheParams, addr: nat)
    requires g.Ok() && addr < Pow2(64)
    ensures g.VictimAddr(g.Tag(addr), g.Index(addr)) + g.Offset(addr) == addr
    ensures g.FetchAddr(g.Tag(addr), g.Index(addr)) + g.Offset(addr) == addr <==> addr < Pow2(32)
  {
    hide Pow2, CacheParams.Tag, CacheParams.Index, CacheParams.Offset, CacheParams.FetchAddr,
         CacheParams.VictimAddr, CacheParams.LineSize, CacheParams.NumSets;
    var k := g.setBits + g.lineBits;
    var tag, index := g.Tag(addr), g.Index(addr);
    TagFits(g, addr, 64);
    TagFits(g, addr, 32);
    VictimAddrIsLineBase(g, tag, index);
    FetchAddrTruncates(g, tag, index);
    SplitJoin(g, addr);
    TruncatedLine(g, tag, index, Pow2(32 - k));
  }

  lemma TruncatedLine(g: CacheParams, tag: nat, index: nat, m: nat)
    requires m > 0 && index < g.NumSets()
    ensures LineBase(g, tag % m, index) == LineBase(g, tag, index) <==> tag < m
  {
    hide Pow2;
    LineOf(g, tag, index, 0);
    LineOf(g, tag % m, index, 0);
    if tag < m {
      DivModUnique(tag, m, 0, tag);
    }
  }

  lemma FourGiBFits()
    ensures Pow2(32) < Pow2(64)
  {
    Pow2Monotone(33, 64);
  }

  /** In the testbench's geometry a miss on address 2^32 fetches another line. */
  lemma HighAddressAliases()
    ensures var g := CacheParams(2, 4, 4);
      g.Ok() && g.FetchAddr(g.Tag(Pow2(32)), g.Index(Pow2(32))) + g.Offset(Pow2(32)) != Pow2(32)
  {
    hide CacheParams.Tag, CacheParams.Index, CacheParams.Offset, CacheParams.FetchAddr;
    FourGiBFits();
    FetchesOwnLineIff(CacheParams(2, 4, 4), Pow2(32));
  }

  /** Lines of different tag or index share no byte, so writing a victim back cannot touch
      the line that is fetched next. */
  lemma LinesDisjoint(g: CacheParams, tag: nat, index: nat, tag': nat, index': nat, i: nat, j: nat)
    requires index < g.NumSets() && index' < g.NumSets()
    requires (tag, index) != (tag', index') && i < g.LineSize() && j < g.LineSize()
    ensures LineBase(g, tag, index) + i != LineBase(g, tag', index') + j
  {
    if LineBase(g, tag, index) + i == LineBase(g, tag', index') + j {
      LineOf(g, tag, index, i);
      LineOf(g, tag', index', j);
      assert false;
    }
  }

  /** Where byte i of a line lies. */
  lemma LineOf(g: CacheParams, tag: nat, index: nat, i: nat)
    requires index < g.NumSets() && i < g.LineSize()
    ensures var a := LineBase(g, tag, index) + i;
      && a / g.LineSize() == LineNo(g, tag, index) && a % g.LineSize() == i
      && a / g.LineSize() % g.NumSets() == index && a / g.LineSize() / g.NumSets() == tag
  {
    hide CacheParams.LineSize, CacheParams.NumSets;
    DivModUnique(LineBase(g, tag, index) + i, g.LineSize(), LineNo(g, tag, index), i);
    DivModUnique(LineNo(g, tag, index), g.NumSets(), tag, index);
  }

  /** The masks and shifts take such a byte's address apart again. */
  lemma LineFields(g: CacheParams, tag: nat, index: nat, i: nat)
    requires g.Ok() && index < g.NumSets() && i < g.LineSize()
    ensures var a := LineBase(g, tag, index) + i;
      g.Tag(a) == tag && g.Index(a) == index && g.Offset(a) == i
  {
    hide CacheParams.Tag, CacheParams.Index, CacheParams.Offset, CacheParams.LineSize,
         CacheParams.NumSets, LineBase;
    LineOf(g, tag, index, i);
    FieldsAre(g, LineBase(g, tag, index) + i);
  }

  /** The length check alone, len <= LineSize, keeps a transfer inside its line wherever it
      starts only for single bytes and empty transfers. */
  lemma LengthCheckSufficesIff(g: CacheParams, len: nat)
    requires g.Ok() && len <= g.LineSize()
    ensures (forall addr: nat :: g.Offset(addr) + len <= g.LineSize()) <==> len <= 1
  {
    hide CacheParams.Offset, CacheParams.Tag, CacheParams.Index, CacheParams.LineSize;
    var last := g.LineSize() - 1;
    FieldsAre(g, last);
    DivModUnique(last, g.LineSize(), 0, last);
    assert g.Offset(last) == last;
  }
}
