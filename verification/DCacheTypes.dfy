/** Types shared by the clocked D-cache and its transaction-level reference model:
    the geometry, the address fields, the cache lines and the memory requests. */
module DCacheTypes {
  import opened Bits
  import opened CacheLines

  type Word = w: nat | w < 0x1_0000_0000

  type Block = seq<Word>

  datatype Option<+T> = None | Some(value: T)

  /** One line of the cache holds a block's words. */
  type Line = CacheLine<Word>

  /** A CPU request as it stands on the cpu_* signals. */
  datatype Req = Req(write: bool, addr: nat, wdata: Word)

  /** A request on the memory channel; addresses are byte addresses of whole blocks. */
  datatype MemReq = WriteBack(addr: nat, data: Block) | Fetch(addr: nat)

  /** The fields of an address: {tag, index, offset}, the offset reduced to its word. */
  datatype Fields = Fields(tag: nat, index: nat, word: nat)

  /** Cache parameters. In the hardware all of them but `ways` are powers of two, and cutting
      {tag, index, offset} out of an address is division by them; the proofs need only that
      they are positive. */
  datatype Params = Params(sets: nat, ways: nat, words: nat, wordBytes: nat, tags: nat) {

    predicate Ok() {
      sets > 0 && ways > 0 && words > 0 && wordBytes > 0 && tags > 0
    }

    function BlockBytes(): nat {
      words * wordBytes
    }

    function Blocks(): nat {
      tags * sets
    }

    /** The address fits the address bus. */
    predicate OnBus(addr: nat) {
      addr < Blocks() * BlockBytes()
    }
  }

  function Decode(p: Params, addr: nat): (f: Fields)
    requires p.Ok() && p.OnBus(addr)
    ensures f.tag < p.tags && f.index < p.sets && f.word < p.words
  {
    DecodeBounds(p, addr);
    Fields(BlockTag(p, BlockAt(p, addr)), BlockIndex(p, BlockAt(p, addr)),
           addr % p.BlockBytes() / p.wordBytes)
  }

  /** Blocks are numbered in address order; the number is {tag, index}. */
  function BlockNo(p: Params, tag: nat, index: nat): nat {
    tag * p.sets + index
  }

  function BlockTag(p: Params, b: nat): nat
    requires p.Ok()
  {
    b / p.sets
  }

  function BlockIndex(p: Params, b: nat): (s: nat)
    requires p.Ok()
    ensures s < p.sets
  {
    b % p.sets
  }

  /** The block a byte address lies in. */
  function BlockAt(p: Params, addr: nat): nat
    requires p.Ok()
  {
    addr / p.BlockBytes()
  }

  /** {tag, index, zeros} */
  function LineAddr(p: Params, tag: nat, index: nat): nat {
    BlockNo(p, tag, index) * p.BlockBytes()
  }

  lemma DecodeBounds(p: Params, addr: nat)
    requires p.Ok() && p.OnBus(addr)
    ensures BlockAt(p, addr) < p.Blocks() && BlockTag(p, BlockAt(p, addr)) < p.tags
    ensures p.BlockBytes() > 0 && 0 <= addr % p.BlockBytes() / p.wordBytes < p.words
  {
    var b := BlockAt(p, addr);
    QuotientBelow(addr, p.BlockBytes(), p.Blocks());
    QuotientBelow(b, p.sets, p.tags);
    QuotientBelow(addr % p.BlockBytes(), p.wordBytes, p.words);
  }

  /** Tag and index are recovered from a block number, which is a block of memory, and the
      line address is an address in that block. */
  lemma BlockNoSplit(p: Params, tag: nat, index: nat)
    requires p.Ok() && tag < p.tags && index < p.sets
    ensures BlockNo(p, tag, index) < p.Blocks()
    ensures BlockTag(p, BlockNo(p, tag, index)) == tag
    ensures BlockIndex(p, BlockNo(p, tag, index)) == index
    ensures BlockAt(p, LineAddr(p, tag, index)) == BlockNo(p, tag, index)
  {
    MulLe(tag + 1, p.tags, p.sets);
    DivModUnique(BlockNo(p, tag, index), p.sets, tag, index);
    DivModUnique(LineAddr(p, tag, index), p.BlockBytes(), BlockNo(p, tag, index), 0);
  }

  /** Splitting a block number and joining it again gives it back. */
  lemma BlockNoJoin(p: Params, b: nat)
    requires p.Ok() && b < p.Blocks()
    ensures BlockTag(p, b) < p.tags
    ensures BlockNo(p, BlockTag(p, b), BlockIndex(p, b)) == b
  {
    QuotientBelow(b, p.sets, p.tags);
  }

  /** {tag, index, zeros}, in numbers. */
  lemma LineAddrIs(p: Params, tag: nat, index: nat)
    ensures LineAddr(p, tag, index) == (tag * p.sets + index) * (p.words * p.wordBytes)
  {}

  /** The fields of an address, most significant first: tag, index, and an offset inside the
      block, which falls into the word. A line address is the same with offset 0. */
  lemma DecodeIsConcatenation(p: Params, addr: nat)
    requires p.Ok() && p.OnBus(addr)
    ensures var f := Decode(p, addr);
      var line := (f.tag * p.sets + f.index) * (p.words * p.wordBytes);
      var offset := addr - line;
      && LineAddr(p, f.tag, f.index) == line
      && 0 <= offset < p.words * p.wordBytes
      && f.word * p.wordBytes <= offset < (f.word + 1) * p.wordBytes
  {
    DecodeBounds(p, addr);
    BlockNoJoin(p, BlockAt(p, addr));
    var offset := addr % p.BlockBytes();
    assert addr == BlockAt(p, addr) * p.BlockBytes() + offset;
    assert offset == (offset / p.wordBytes) * p.wordBytes + offset % p.wordBytes;
  }
}
