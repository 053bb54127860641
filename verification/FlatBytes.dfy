/** A flat memory of bytes: the reference the TLM memory and the TLM cache are held against. */
module FlatBytes {

  type Byte = b: nat | b < 256

  /** One byte at every address. */
  type Flat = imap<nat, Byte>

  datatype Command = Read | Write | Ignore

  datatype Status = Incomplete | Ok | GenericError | BurstError

  ghost predicate Total(m: Flat) {
    forall a: nat :: a in m
  }

  ghost function ReadBytes(m: Flat, addr: nat, len: nat): (s: seq<Byte>)
    requires Total(m)
    ensures |s| == len
  {
    seq(len, i requires 0 <= i < len => m[addr + i])
  }

  ghost function WriteBytes(m: Flat, addr: nat, data: seq<Byte>): (r: Flat)
    requires Total(m)
    ensures Total(r)
  {
    imap a: nat | a in m :: if addr <= a < addr + |data| then data[a - addr] else m[a]
  }

  /** Every byte is 0 before the first write. */
  ghost function Zeroed(): (m: Flat)
    ensures Total(m) && forall a: nat :: m[a] == 0
  {
    imap a: nat | true :: FreshByte(a)
  }

  ghost function FreshByte(a: nat): Byte {
    0
  }

  /** Two adjacent transfers are one. */
  lemma WriteSplit(m: Flat, addr: nat, data: seq<Byte>, c: nat)
    requires Total(m) && c <= |data|
    ensures WriteBytes(WriteBytes(m, addr, data[..c]), addr + c, data[c..]) == WriteBytes(m, addr, data)
  {}

  lemma ReadSplit(m: Flat, addr: nat, len: nat, c: nat)
    requires Total(m) && c <= len
    ensures ReadBytes(m, addr, c) + ReadBytes(m, addr + c, len - c) == ReadBytes(m, addr, len)
  {}
}
