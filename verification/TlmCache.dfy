/** The TLM cache over the paged memory. Its methods change lines and queues in place; their
    contracts hold them against one flat memory of bytes. */
module TlmCache {
  import opened Bits
  import opened CacheLines
  import opened Geometry
  import opened FlatBytes
  import opened Replacement
  import opened PagedMemory
  import opened TlmSpec

  /** Addresses the cache can fetch: those below 2^32. */
  const REACHABLE: nat := 0x1_0000_0000

  lemma TagReachable(g: CacheParams, addr: nat)
    requires g.Ok() && addr < REACHABLE
    ensures g.Tag(addr) < TagLimit(g) <= Pow2(32)
  {
    hide CacheParams.Tag, Pow2;
    Pow2At32();
    TagFits(g, addr, 32);
    Pow2Monotone(32 - (g.setBits + g.lineBits), 32);
  }

  /** For a reachable tag both ways of computing a line's address give its base, which the
      memory can serve. */
  lemma LineAddresses(g: CacheParams, tag: nat, index: nat)
    requires g.Ok() && index < g.NumSets() && tag < TagLimit(g)
    ensures g.VictimAddr(tag, index) == g.FetchAddr(tag, index) == LineBase(g, tag, index)
    ensures LineBase(g, tag, index) + g.LineSize() <= REACHABLE
  {
    hide CacheParams.VictimAddr, CacheParams.FetchAddr, Pow2, CacheParams.LineSize, CacheParams.NumSets, LineBase;
    var k := g.setBits + g.lineBits;
    Pow2Monotone(32 - k, 64 - k);
    VictimAddrIsLineBase(g, tag, index);
    FetchAddrTruncates(g, tag, index);
    DivModUnique(tag, Pow2(32 - k), 0, tag);
    LineEnd(g, tag, index);
  }

  /** Whatever the tag, a miss handler's address is one the memory can serve. */
  lemma FetchAddrFits(g: CacheParams, tag: nat, index: nat)
    requires g.Ok() && index < g.NumSets()
    ensures g.FetchAddr(tag, index) + g.LineSize() <= REACHABLE
  {
    hide CacheParams.FetchAddr, Pow2, CacheParams.LineSize, CacheParams.NumSets, LineBase;
    FetchAddrTruncates(g, tag, index);
    LineEnd(g, tag % TagLimit(g), index);
  }

  /** An address of 2^32 or more is never resident while the lines hold reachable tags. */
  lemma HighAddressMisses(g: CacheParams, sets: seq<seq<Line>>, queues: seq<seq<nat>>, m: Flat, addr: nat)
    requires g.Ok() && Total(m) && CacheOk(g, sets, queues, m) && addr >= REACHABLE
    ensures var row := sets[g.Index(addr)]; FirstHit(row, g.Tag(addr)) == |row|
  {
    hide CacheParams.Tag, CacheParams.Index, Pow2, CacheParams.NumSets, CacheParams.LineSize, LineBase, ReadBytes;
    Pow2At32();
    TagFits(g, addr, 32);
    var s := g.Index(addr);
    assert SetOk(g, sets[s], queues[s], s, m);
    var h := FirstHit(sets[s], g.Tag(addr));
    assert h < |sets[s]| ==> LineOk(g, sets[s][h], s, m);
  }

  lemma LineEnd(g: CacheParams, tag: nat, index: nat)
    requires g.Ok() && index < g.NumSets() && tag < TagLimit(g)
    ensures LineBase(g, tag, index) + g.LineSize() <= REACHABLE
  {
    hide Pow2, CacheParams.LineSize, CacheParams.NumSets, LineBase;
    var k := g.setBits + g.lineBits;
    Pow2At32();
    Pow2Add(32 - k, k);
    Pow2Add(g.setBits, g.lineBits);
    LineBaseParts(g, tag, index);
    assert g.NumSets() * g.LineSize() == Pow2(k) by { SetsTimesLine(g); }
    EndBound(tag, Pow2(32 - k), index, g.NumSets(), g.LineSize());
  }

  lemma SetsTimesLine(g: CacheParams)
    ensures g.NumSets() * g.LineSize() == Pow2(g.setBits + g.lineBits)
  {
    Pow2Add(g.setBits, g.lineBits);
  }

  lemma EndBound(t: nat, q: nat, i: nat, n: nat, l: nat)
    requires t < q && i < n
    ensures t * (n * l) + i * l + l <= q * (n * l)
  {
    MulLe(i + 1, n, l);
    MulLe(t + 1, q, n * l);
  }

  /** Queue entries after an allocation: the same ways and the one allocated. */
  lemma AllocQueue(valid: seq<bool>, queue: seq<nat>)
    requires Full(valid) ==> |queue| > 0
    ensures var (way, queue') := TlmAlloc(valid, queue);
      && way in queue'
      && (forall i :: i in queue ==> i in queue')
      && (forall j :: 0 <= j < |queue'| ==> queue'[j] == way || queue'[j] in queue)
  {
    var (way, queue') := TlmAlloc(valid, queue);
    assert queue'[|queue'| - 1] == way;
    forall i | i in queue ensures i in queue' {
      var j :| 0 <= j < |queue| && queue[j] == i;
      if !Full(valid) {
        assert queue'[j] == i;
      } else if j > 0 {
        assert queue'[j - 1] == i;
      }
    }
  }

  class CacheTlm {
    const g: CacheParams
    const mem: SparseMemory
    var sets: seq<seq<Line>>
    var queues: seq<seq<nat>>

    /** The tags of the served accesses of each set, and whether every miss so far was
        filled. */
    ghost var accesses: seq<seq<nat>>
    ghost var faultFree: bool

    /** Lines written back so far. */
    ghost var writeBacks: nat

    ghost predicate Valid()
      reads this, mem, mem.Buffers()
    {
      g.Ok() && mem.Valid() && this !in mem.Buffers() && CacheOk(g, sets, queues, mem.View())
    }

    /** The bytes the CPU sees. */
    ghost function View(): (m: Flat)
      reads this, mem, mem.Buffers()
      requires Valid()
      ensures Total(m)
    {
      CacheView(g, sets, mem.View())
    }

    ghost predicate IsHitAt(addr: nat)
      reads this
      requires g.Ok() && |sets| == g.NumSets()
    {
      var row := sets[g.Index(addr)];
      FirstHit(row, g.Tag(addr)) < |row|
    }

    /** Everything a request may change. */
    ghost function Now(): (s: CacheState)
      reads this, mem, mem.Buffers()
      requires mem.Valid()
      ensures s.sets == sets && s.queues == queues && s.memory == mem.View() && s.writeBacks == writeBacks
    {
      CacheState(sets, queues, mem.View(), writeBacks)
    }

    /** Write-backs made and lines still dirty: what the CPU's writes have to pay for. */
    ghost function Balance(): nat
      reads this
    {
      writeBacks + DirtyLines(sets)
    }

    /** Without faults every set is what its accesses make it under FIFO replacement, and no
        more lines have been written back than were pushed out. */
    ghost predicate FollowsFifo()
      reads this
    {
      && |sets| == |queues| == |accesses| && g.ways > 0
      && (faultFree ==> FifoSets(g.ways, sets, queues, accesses) && writeBacks <= Evictions(g.ways, accesses))
    }

    constructor (g: CacheParams, mem: SparseMemory)
      requires g.Ok() && mem.Valid() && mem.View() == Zeroed()
      ensures Valid() && FollowsFifo() && faultFree && writeBacks == 0 && accesses == EmptyQueues(g)
      ensures this.g == g && this.mem == mem
      ensures View() == Zeroed() && Balance() == 0
    {
      this.g := g;
      this.mem := mem;
      sets, queues := EmptySets(g), EmptyQueues(g);
      accesses := EmptyQueues(g);
      faultFree := true;
      writeBacks := 0;
      new;
      hide CacheOk, CacheView, SparseMemory.View, SparseMemory.Valid, CacheParams.NumSets, EmptySets,
           EmptyQueues, FifoSets, DirtyLines, CacheParams.LineSize, Zeroed;
      assert Valid() by { EmptyCache(g, mem.View()); }
      assert View() == Zeroed() by { EmptyCache(g, mem.View()); }
      assert FollowsFifo() by { EmptyTags(g); }
      EmptyClean(g);
    }

    /** The search for the requested line. */
    method Lookup(index: nat, tag: nat) returns (way: nat)
      requires index < |sets|
      ensures way == FirstHit(sets[index], tag)
    {
      var row := sets[index];
      way := 0;
      while way < |row| && !Matches(row[way], tag)
        invariant way <= |row|
        invariant forall j :: 0 <= j < way ==> !Matches(row[j], tag)
      {
        way := way + 1;
      }
      FirstHitAt(row, way, tag);
    }

    /** Writes a dirty line to its place in memory and cleans it; the CPU sees no change. */
    method WriteBack(index: nat, way: nat)
      requires Valid() && index < g.NumSets() && way < g.ways
      modifies this`sets, this`writeBacks, mem, mem.Buffers()
      ensures Valid() && fresh(mem.Buffers() - old(mem.Buffers()))
      ensures View() == old(View())
      ensures sets == SetLine(old(sets), index, way, old(sets[index][way]).(dirty := false))
      ensures mem.View() == if old(sets[index][way]).dirty
                            then WrittenBack(g, old(mem.View()), old(sets[index][way]), index)
                            else old(mem.View())
      ensures writeBacks == old(writeBacks) + Bit(old(sets[index][way]).dirty) && Balance() == old(Balance())
    {
      hide CacheOk, CacheView, Pow2, CacheParams.LineSize, CacheParams.NumSets, CacheParams.VictimAddr,
           LineBase, SparseMemory.Valid, SparseMemory.View, SparseMemory.Buffers, DirtyLines,
           PagedWrite, PagedRead, PageOffset, WriteBytes;
      CacheShape(g, sets, queues, mem.View());
      var line := sets[index][way];
      SetUpdate(sets, index, way, line.(dirty := false));
      if !line.dirty || !line.valid {
        CleanStaysClean(g, sets, queues, mem.View(), index, way);
        return;
      }
      WriteBackKeeps(g, sets, queues, mem.View(), index, way);
      WriteBackAddr(g, sets, queues, mem.View(), index, way);
      mem.LowAddressPlaced(LineBase(g, line.tag, index));
      var _, _, _ := mem.BTransport(Write, g.VictimAddr(line.tag, index), line.data);
      sets := SetLine(sets, index, way, line.(dirty := false));
      writeBacks := writeBacks + 1;
    }

    /** Picks the way for a missing line: an empty one, else the head of the queue, written
        back if dirty. The way ends up last in the queue; the CPU sees no change. */
    method AllocWay(index: nat) returns (way: nat)
      requires Valid() && index < g.NumSets()
      modifies this`sets, this`queues, this`writeBacks, mem, mem.Buffers()
      ensures Valid() && fresh(mem.Buffers() - old(mem.Buffers()))
      ensures View() == old(View())
      ensures way < g.ways && way in queues[index]
      ensures sets == SetLine(old(sets), index, way, old(sets[index][way]).(dirty := false))
      ensures Usable(TagSet(Tags(old(sets[index])), old(queues[index])))
      ensures (way, queues[index]) == TlmAlloc(ValidBits(Tags(old(sets[index]))), old(queues[index]))
      ensures Allocates(old(sets[index]), old(queues[index]), way)
      ensures queues == old(queues)[index := (if old(sets)[index][way].valid then old(queues[index])[1..]
                                              else old(queues[index])) + [way]]
      ensures mem.View() == if old(sets)[index][way].dirty
                            then WrittenBack(g, old(mem.View()), old(sets)[index][way], index)
                            else old(mem.View())
      ensures writeBacks == old(writeBacks) + Bit(old(sets)[index][way].dirty) && Balance() == old(Balance())
    {
      hide DirtyLines, CacheView, Pow2, CacheParams.LineSize, CacheParams.NumSets, CacheParams.VictimAddr,
           LineBase, SparseMemory.Valid, SparseMemory.View, LineOk, Tags, CacheOk, SetOk;
      CacheShape(g, sets, queues, mem.View());
      var row := sets[index];
      CacheUsable(g, sets, queues, mem.View(), index);
      AllocKeepsOk(g, sets, queues, mem.View(), index);
      way := 0;
      while way < g.ways && row[way].valid
        invariant way <= g.ways
        invariant forall j :: 0 <= j < way ==> row[j].valid
      {
        way := way + 1;
      }
      FirstInvalidAt(ValidBits(Tags(row)), way);
      if way < g.ways {
        queues := queues[index := queues[index] + [way]];
        CleanStaysClean(g, sets, queues, mem.View(), index, way);
        return;
      }
      way := queues[index][0];
      queues := queues[index := queues[index][1..] + [way]];
      WriteBack(index, way);
    }

    /** Fetches the missing line into the way; nothing is changed when the memory answers with
        an error. The tag arrives as a 32-bit value, so the line is the missing one, and the
        CPU sees no change, when its tag is reachable. */
    method FetchLine(tag: nat, index: nat, way: nat, memOk: bool) returns (ok: bool)
      requires Valid() && index < g.NumSets() && way < g.ways && way in queues[index]
      requires !sets[index][way].dirty && tag < Pow2(32)
      modifies this`sets, mem, mem.Buffers()
      ensures mem.Valid() && fresh(mem.Buffers() - old(mem.Buffers()))
      ensures mem.View() == old(mem.View()) && Balance() == old(Balance())
      ensures ok == memOk
      ensures sets == if ok then SetLine(old(sets), index, way, HandlerLine(g, mem.View(), tag, index))
                      else old(sets)
      ensures !ok || (tag < TagLimit(g) && FirstHit(old(sets[index]), tag) == g.ways) ==>
        Valid() && View() == old(View())
    {
      hide CacheOk, CacheView, Pow2, CacheParams.LineSize, CacheParams.NumSets, CacheParams.FetchAddr,
           LineBase, SparseMemory.Valid, SparseMemory.View, ReadBytes, DirtyLines,
           PagedWrite, PagedRead, PageOffset, WriteBytes;
      CacheShape(g, sets, queues, mem.View());
      if !memOk {
        return false;
      }
      FetchAddrFits(g, tag, index);
      mem.LowAddressPlaced(g.FetchAddr(tag, index));
      if tag < TagLimit(g) && FirstHit(sets[index], tag) == g.ways {
        LineAddresses(g, tag, index);
        FillKeeps(g, sets, queues, mem.View(), index, way, tag);
      }
      var status, buffer, _ := mem.BTransport(Read, g.FetchAddr(tag, index), seq(g.LineSize(), _ => 0));
      var line := Line(true, false, tag, buffer);
      SetUpdate(sets, index, way, line);
      sets := SetLine(sets, index, way, line);
      return true;
    }

    /** The bytes of a transfer taken from the line that holds them. */
    method ReadLine(addr: nat, way: nat, len: nat) returns (out: seq<Byte>)
      requires Valid() && IsHitAt(addr) && way == FirstHit(sets[g.Index(addr)], g.Tag(addr))
      requires g.Offset(addr) + len <= g.LineSize()
      ensures out == ReadBytes(View(), addr, len)
    {
      hide CacheOk, CacheView, Pow2, CacheParams.LineSize, CacheParams.NumSets, CacheParams.Tag,
           CacheParams.Index, CacheParams.Offset, SparseMemory.Valid, SparseMemory.View, ReadBytes;
      CacheShape(g, sets, queues, mem.View());
      HitReads(g, sets, queues, mem.View(), addr, len);
      var offset := g.Offset(addr);
      out := sets[g.Index(addr)][way].data[offset..offset + len];
    }

    /** The bytes of a transfer put into the line that holds them, which becomes dirty. */
    method WriteLine(addr: nat, way: nat, data: seq<Byte>)
      requires Valid() && IsHitAt(addr) && way == FirstHit(sets[g.Index(addr)], g.Tag(addr))
      requires g.Offset(addr) + |data| <= g.LineSize()
      modifies this`sets
      ensures Valid() && View() == WriteBytes(old(View()), addr, data)
      ensures g.Offset(addr) + |data| <= |old(sets)[g.Index(addr)][way].data|
      ensures sets == SetLine(old(sets), g.Index(addr), way,
                              Overwritten(old(sets)[g.Index(addr)][way], g.Offset(addr), data))
      ensures Balance() <= old(Balance()) + 1
      ensures Tags(sets[g.Index(addr)]) == Tags(old(sets[g.Index(addr)]))
    {
      hide CacheOk, CacheView, Pow2, CacheParams.LineSize, CacheParams.NumSets, CacheParams.Tag,
           CacheParams.Index, CacheParams.Offset, SparseMemory.Valid, SparseMemory.View, WriteBytes,
           Overwritten, DirtyLines;
      CacheShape(g, sets, queues, mem.View());
      HitWrites(g, sets, queues, mem.View(), addr, data);
      var index := g.Index(addr);
      var line := sets[index][way];
      OverwrittenFlags(line, g.Offset(addr), data);
      SetUpdate(sets, index, way, Overwritten(line, g.Offset(addr), data));
      sets := SetLine(sets, index, way, Overwritten(line, g.Offset(addr), data));
      OverwrittenTags(old(sets[index]), way, sets[index][way]);
    }

    /** A read that missed: fill the way, then copy out of it, the flat memory's bytes if the
        address is reachable. */
    method ReadMissProc(addr: nat, tag: nat, index: nat, way: nat, data: seq<Byte>, memOk: bool)
      returns (ok: bool, status: Status, out: seq<Byte>)
      requires Valid() && index == g.Index(addr) && tag == HandlerTag(g, addr)
      requires way < g.ways && way in queues[index] && !sets[index][way].dirty && !IsHitAt(addr)
      requires g.Offset(addr) + |data| <= g.LineSize()
      modifies this`sets, mem, mem.Buffers()
      ensures mem.Valid() && fresh(mem.Buffers() - old(mem.Buffers()))
      ensures mem.View() == old(mem.View()) && Balance() == old(Balance())
      ensures ok == memOk && status == if ok then Ok else GenericError
      ensures sets == if ok then SetLine(old(sets), index, way, HandlerLine(g, mem.View(), tag, index))
                      else old(sets)
      ensures out == if ok then ReadBytes(mem.View(), HandlerAddr(g, addr), |data|) else data
      ensures !ok || addr < REACHABLE ==> Valid() && View() == old(View())
      ensures ok && addr < REACHABLE ==> out == ReadBytes(View(), addr, |data|)
    {
      hide CacheOk, CacheView, Pow2, CacheParams.LineSize, CacheParams.NumSets, CacheParams.Tag,
           CacheParams.Index, CacheParams.Offset, CacheParams.FetchAddr, SparseMemory.Valid,
           SparseMemory.View, ReadBytes, Tags, DirtyLines, CacheTlm.Balance, TagLimit;
      CacheShape(g, sets, queues, mem.View());
      TagAsUnsigned(g, addr);
      ok := FetchLine(tag, index, way, memOk);
      if !ok {
        return false, GenericError, data;
      }
      var line, offset := sets[index][way], g.Offset(addr);
      ReadPart(mem.View(), g.FetchAddr(tag, index), g.LineSize(), offset, |data|);
      out := line.data[offset..offset + |data|];
      if addr < REACHABLE {
        FilledTags(old(sets[index]), way, line);
        FilledHit(old(sets[index]), sets[index], way, tag);
        HitReads(g, sets, queues, mem.View(), addr, |data|);
      }
      return true, Ok, out;
    }

    /** A write that missed: fill the way, then overwrite the line, which is a write to the
        flat memory if the address is reachable. */
    method WriteMissProc(addr: nat, tag: nat, index: nat, way: nat, data: seq<Byte>, memOk: bool)
      returns (ok: bool, status: Status)
      requires Valid() && index == g.Index(addr) && tag == HandlerTag(g, addr)
      requires way < g.ways && way in queues[index] && !sets[index][way].dirty && !IsHitAt(addr)
      requires g.Offset(addr) + |data| <= g.LineSize()
      modifies this`sets, mem, mem.Buffers()
      ensures mem.Valid() && fresh(mem.Buffers() - old(mem.Buffers()))
      ensures mem.View() == old(mem.View()) && Balance() == old(Balance()) + Bit(ok)
      ensures ok == memOk && status == if ok then Ok else GenericError
      ensures sets == if ok then
                        var line := HandlerLine(g, mem.View(), tag, index);
                        SetLine(old(sets), index, way, Overwritten(line, g.Offset(addr), data))
                      else old(sets)
      ensures !ok || addr < REACHABLE ==>
        Valid() && View() == if ok then WriteBytes(old(View()), addr, data) else old(View())
    {
      hide CacheOk, CacheView, Pow2, CacheParams.LineSize, CacheParams.NumSets, CacheParams.Tag,
           CacheParams.Index, CacheParams.Offset, CacheParams.FetchAddr, SparseMemory.Valid,
           SparseMemory.View, ReadBytes, WriteBytes, Tags, DirtyLines, TagLimit, Overwritten;
      CacheShape(g, sets, queues, mem.View());
      TagAsUnsigned(g, addr);
      ok := FetchLine(tag, index, way, memOk);
      if !ok {
        return false, GenericError;
      }
      var line, offset := sets[index][way], g.Offset(addr);
      if addr < REACHABLE {
        FilledTags(old(sets[index]), way, line);
        FilledHit(old(sets[index]), sets[index], way, tag);
        HitWrites(g, sets, queues, mem.View(), addr, data);
      }
      OverwrittenFlags(line, offset, data);
      SetUpdate(sets, index, way, Overwritten(line, offset, data));
      SetLineTwice(old(sets), index, way, line, Overwritten(line, offset, data));
      sets := SetLine(sets, index, way, Overwritten(line, offset, data));
      return true, Ok;
    }

    /** Serves one transfer. Requests longer than a line are refused. A read that hits or
        whose fetch succeeds returns the flat memory's bytes; a write overwrites exactly its
        bytes; unknown commands and failed fetches change nothing the CPU can see. `memOk` is
        the memory's answer to a fetch. A served access steps its set as FIFO does. An address
        of 2^32 or more always misses, and is then served with another address's bytes. */
    method HandleRequest(cmd: Command, addr: nat, data: seq<Byte>, memOk: bool, initial: Status)
      returns (ok: bool, status: Status, out: seq<Byte>)
      requires Valid() && FollowsFifo()
      requires |data| <= g.LineSize() ==> g.Offset(addr) + |data| <= g.LineSize()
      modifies this, mem, mem.Buffers()
      ensures mem.Valid() && FollowsFifo() && fresh(mem.Buffers() - old(mem.Buffers()))
      ensures ok == (|data| <= g.LineSize() && !cmd.Ignore? && (old(IsHitAt(addr)) || memOk))
      ensures status == if |data| > g.LineSize() then BurstError
                        else if ok then Ok
                        else if cmd.Ignore? then initial else GenericError
      ensures !ok || addr < REACHABLE ==>
        && Valid()
        && View() == (if ok && cmd.Write? then WriteBytes(old(View()), addr, data) else old(View()))
        && out == if ok && cmd.Read? then ReadBytes(old(View()), addr, |data|) else data
      ensures ok && addr >= REACHABLE ==> Misfilled(cmd, addr, data, out)
      ensures ok && addr < REACHABLE ==>
        accesses == old(accesses)[g.Index(addr) := old(accesses[g.Index(addr)]) + [g.Tag(addr)]]
      ensures faultFree == (old(faultFree) && (|data| > g.LineSize() || old(IsHitAt(addr)) || (ok && addr < REACHABLE)))
      ensures !ok ==> accesses == old(accesses)
      ensures Balance() <= old(Balance()) + Bit(ok && cmd.Write?)
      ensures |old(sets)| == |old(queues)| == g.NumSets()
      ensures Effect(g, old(Now()), Now(), cmd, addr, data, ok)
    {
      hide CacheOk, CacheView, Pow2, CacheParams.LineSize, CacheParams.NumSets, CacheParams.Tag,
           CacheParams.Index, CacheParams.Offset, SparseMemory.Valid, SparseMemory.View, WriteBytes,
           ReadBytes, Tags, Access, FifoSets, TlmAlloc, CacheTlm.Misfilled, DirtyLines, HitEffect, MissEffect,
           CacheTlm.Now;
      ghost var before := Now();
      out := data;
      CacheShape(g, sets, queues, mem.View());
      if |data| > g.LineSize() {
        return false, BurstError, out;
      }
      if addr >= REACHABLE {
        HighAddressMisses(g, sets, queues, mem.View(), addr);
      }
      var index, tag := g.Index(addr), g.Tag(addr);
      var hit := Lookup(index, tag);
      if hit < g.ways {
        ok, status, out := ServeHit(cmd, addr, hit, data, initial);
      } else {
        ok, status, out := ServeMiss(cmd, addr, data, memOk, initial);
      }
      EffectOf(g, before, Now(), cmd, addr, data, ok);
    }

    /** What a miss on an address of 2^32 or more does: some way of the set holds the block at
        the handlers' address, a read copied from there, a write went over it. */
    ghost predicate Misfilled(cmd: Command, addr: nat, data: seq<Byte>, out: seq<Byte>)
      reads this, mem, mem.Buffers()
    {
      && g.Ok() && mem.Valid() && |sets| == g.NumSets() && g.Offset(addr) + |data| <= g.LineSize()
      && var line := HandlerLine(g, mem.View(), HandlerTag(g, addr), g.Index(addr));
      && (if cmd.Write? then Overwritten(line, g.Offset(addr), data) else line) in sets[g.Index(addr)]
      && out == if cmd.Read? then ReadBytes(mem.View(), HandlerAddr(g, addr), |data|) else data
    }

    /** A request whose line is resident. */
    method ServeHit(cmd: Command, addr: nat, way: nat, data: seq<Byte>, initial: Status)
      returns (ok: bool, status: Status, out: seq<Byte>)
      requires Valid() && FollowsFifo() && IsHitAt(addr) && way == FirstHit(sets[g.Index(addr)], g.Tag(addr))
      requires g.Offset(addr) + |data| <= g.LineSize()
      modifies this`sets, this`accesses
      ensures Valid() && FollowsFifo()
      ensures ok == !cmd.Ignore? && status == if ok then Ok else initial
      ensures View() == if cmd.Write? then WriteBytes(old(View()), addr, data) else old(View())
      ensures out == if cmd.Read? then ReadBytes(old(View()), addr, |data|) else data
      ensures accesses == if ok then old(accesses)[g.Index(addr) := old(accesses[g.Index(addr)]) + [g.Tag(addr)]]
                          else old(accesses)
      ensures Balance() <= old(Balance()) + Bit(ok && cmd.Write?)
      ensures HitEffect(g, old(Now()), Now(), cmd, addr, data)
    {
      hide CacheOk, CacheView, Pow2, CacheParams.LineSize, CacheParams.NumSets, CacheParams.Tag,
           CacheParams.Index, CacheParams.Offset, SparseMemory.Valid, SparseMemory.View, WriteBytes,
           ReadBytes, Tags, Access, FifoSets, TlmAlloc, DirtyLines, HitEffect, CacheTlm.Now;
      ghost var before := Now();
      CacheShape(g, sets, queues, mem.View());
      CacheUsable(g, sets, queues, mem.View(), g.Index(addr));
      HitLineSize(g, sets, queues, mem.View(), addr);
      out := data;
      match cmd {
        case Ignore =>
          HitEffectOf(g, before, Now(), cmd, addr, data);
          return false, initial, out;
        case Read => out := ReadLine(addr, way, |data|);
        case Write => WriteLine(addr, way, data);
      }
      HitEffectOf(g, before, Now(), cmd, addr, data);
      HitAccess(old(sets[g.Index(addr)]), queues[g.Index(addr)], g.Tag(addr));
      NoteAccess(g.Index(addr), g.Tag(addr), old(sets), queues);
      return true, Ok, out;
    }

    /** A request whose line is not resident. The way is allocated whatever the command. */
    method ServeMiss(cmd: Command, addr: nat, data: seq<Byte>, memOk: bool, initial: Status)
      returns (ok: bool, status: Status, out: seq<Byte>)
      requires Valid() && FollowsFifo() && !IsHitAt(addr)
      requires g.Offset(addr) + |data| <= g.LineSize()
      modifies this, mem, mem.Buffers()
      ensures mem.Valid() && FollowsFifo() && fresh(mem.Buffers() - old(mem.Buffers()))
      ensures ok == (!cmd.Ignore? && memOk)
      ensures status == if ok then Ok else if cmd.Ignore? then initial else GenericError
      ensures !ok || addr < REACHABLE ==>
        && Valid()
        && View() == (if ok && cmd.Write? then WriteBytes(old(View()), addr, data) else old(View()))
        && out == if ok && cmd.Read? then ReadBytes(old(View()), addr, |data|) else data
      ensures ok && addr >= REACHABLE ==> Misfilled(cmd, addr, data, out)
      ensures ok && addr < REACHABLE ==>
        accesses == old(accesses)[g.Index(addr) := old(accesses[g.Index(addr)]) + [g.Tag(addr)]]
      ensures !ok ==> accesses == old(accesses)
      ensures faultFree == (old(faultFree) && ok && addr < REACHABLE)
      ensures Balance() <= old(Balance()) + Bit(ok && cmd.Write?)
      ensures MissEffect(g, old(Now()), Now(), cmd, addr, data, ok)
    {
      hide CacheOk, CacheView, Pow2, CacheParams.LineSize, CacheParams.NumSets, CacheParams.Tag,
           CacheParams.Index, CacheParams.Offset, SparseMemory.Valid, SparseMemory.View, WriteBytes,
           ReadBytes, Tags, FifoSets, TlmAlloc, CacheTlm.Misfilled, DirtyLines, Usable, ValidBits,
           HandlerTag, HandlerAddr, TagLimit, MissEffect, CacheTlm.Now, Evictions;
      ghost var before := Now();
      CacheShape(g, sets, queues, mem.View());
      ghost var way;
      faultFree := faultFree && !cmd.Ignore? && memOk && addr < REACHABLE;
      ok, status, out, way := AllocAndFill(cmd, addr, data, memOk, initial);
      if ok && addr < REACHABLE {
        NoteMiss(g.Index(addr), g.Tag(addr), way, before.sets, before.queues);
      }
    }

    /** A miss: the way is allocated, then the command served. */
    method AllocAndFill(cmd: Command, addr: nat, data: seq<Byte>, memOk: bool, initial: Status)
      returns (ok: bool, status: Status, out: seq<Byte>, ghost way: nat)
      requires Valid() && !IsHitAt(addr) && g.Offset(addr) + |data| <= g.LineSize()
      modifies this`sets, this`queues, this`writeBacks, mem, mem.Buffers()
      ensures mem.Valid() && fresh(mem.Buffers() - old(mem.Buffers()))
      ensures ok == (!cmd.Ignore? && memOk)
      ensures status == if ok then Ok else if cmd.Ignore? then initial else GenericError
      ensures !ok || addr < REACHABLE ==>
        && Valid()
        && View() == (if ok && cmd.Write? then WriteBytes(old(View()), addr, data) else old(View()))
        && out == if ok && cmd.Read? then ReadBytes(old(View()), addr, |data|) else data
      ensures ok && addr >= REACHABLE ==> Misfilled(cmd, addr, data, out)
      ensures Balance() <= old(Balance()) + Bit(ok && cmd.Write?)
      ensures MissEffect(g, old(Now()), Now(), cmd, addr, data, ok)
      ensures |sets| == |queues| == g.NumSets()
      ensures var s := g.Index(addr); var row := old(sets)[s];
        && way < |row|
        && sets == old(sets)[s := sets[s]] && queues == old(queues)[s := queues[s]]
        && Usable(TagSet(Tags(row), old(queues)[s]))
        && (way, queues[s]) == TlmAlloc(ValidBits(Tags(row)), old(queues)[s])
        && writeBacks <= old(writeBacks) + Bit(forall j :: 0 <= j < |row| ==> row[j].valid)
        && (ok && addr < REACHABLE ==> Tags(sets[s]) == Tags(row)[way := Holds(g.Tag(addr))])
    {
      hide CacheOk, CacheView, Pow2, CacheParams.LineSize, CacheParams.NumSets, CacheParams.Tag,
           CacheParams.Index, CacheParams.Offset, SparseMemory.Valid, SparseMemory.View, WriteBytes,
           ReadBytes, Tags, TlmAlloc, CacheTlm.Misfilled, DirtyLines, WrittenBack, Usable, ValidBits,
           HandlerTag, HandlerAddr, TagLimit, MissEffect, NewLine, Allocates, CacheTlm.Now, FirstHit;
      ghost var before := Now();
      CacheShape(g, sets, queues, mem.View());
      var index := g.Index(addr);
      var victim := AllocWay(index);
      way := victim;
      CleanedRow(before.sets[index], sets[index], way, g.Tag(addr));
      DirtyVictim(g, before.sets, before.queues, before.memory, index, way);
      ok, status, out := FillAndServe(cmd, addr, victim, data, memOk, initial);
      MissEffectOf(g, before, Now(), cmd, addr, data, ok, way);
    }

    /** Records a served miss whose way was allocated and filled. */
    ghost method NoteMiss(index: nat, tag: nat, way: nat, sets0: seq<seq<Line>>, queues0: seq<seq<nat>>)
      requires g.ways > 0 && |sets0| == |queues0| == |accesses| == |sets| == |queues| && index < |sets|
      requires faultFree ==> FifoSets(g.ways, sets0, queues0, accesses)
      requires faultFree ==>
        writeBacks <= Evictions(g.ways, accesses) + Bit(forall j :: 0 <= j < |sets0[index]| ==> sets0[index][j].valid)
      requires sets == sets0[index := sets[index]] && queues == queues0[index := queues[index]]
      requires Usable(TagSet(Tags(sets0[index]), queues0[index]))
      requires FirstHit(sets0[index], tag) == |sets0[index]| && way < |sets0[index]|
      requires (way, queues[index]) == TlmAlloc(ValidBits(Tags(sets0[index])), queues0[index])
      requires Tags(sets[index]) == Tags(sets0[index])[way := Holds(tag)]
      modifies this`accesses
      ensures FollowsFifo()
      ensures accesses == old(accesses)[index := old(accesses[index]) + [tag]]
    {
      hide Access, FifoSets, Tags, TlmAlloc, Usable, ValidBits, FirstHit, Evictions, Full, Resident;
      MissAccess(sets0[index], queues0[index], way, queues[index], tag);
      HitIsResident(sets0[index], queues0[index], tag);
      FullRow(sets0[index]);
      NoteAccess(index, tag, sets0, queues0);
    }

    /** Records a served access of a set that has stepped as FIFO does. */
    ghost method NoteAccess(index: nat, tag: nat, sets0: seq<seq<Line>>, queues0: seq<seq<nat>>)
      requires g.ways > 0 && |sets0| == |queues0| == |accesses| == |sets| == |queues| && index < |sets|
      requires faultFree ==> FifoSets(g.ways, sets0, queues0, accesses)
      requires faultFree ==>
        writeBacks <= Evictions(g.ways, accesses) + Bit(PushesOut(TagSet(Tags(sets0[index]), queues0[index]), tag))
      requires sets == sets0[index := sets[index]] && queues == queues0[index := queues[index]]
      requires Usable(TagSet(Tags(sets0[index]), queues0[index]))
      requires TagSet(Tags(sets[index]), queues[index]) == Access(TagSet(Tags(sets0[index]), queues0[index]), tag)
      modifies this`accesses
      ensures FollowsFifo()
      ensures accesses == old(accesses)[index := old(accesses[index]) + [tag]]
    {
      hide Access, FifoSets, Tags, Evictions, PushesOut;
      if faultFree {
        SetEvicts(g.ways, sets0, queues0, accesses, index, tag);
        FifoStep(g.ways, sets0, queues0, accesses, sets, queues, index, tag);
      }
      accesses := accesses[index := accesses[index] + [tag]];
    }

    /** The command of a request that missed, once its way is allocated. */
    method FillAndServe(cmd: Command, addr: nat, way: nat, data: seq<Byte>, memOk: bool, initial: Status)
      returns (ok: bool, status: Status, out: seq<Byte>)
      requires Valid() && way < g.ways && way in queues[g.Index(addr)]
      requires !sets[g.Index(addr)][way].dirty && !IsHitAt(addr)
      requires g.Offset(addr) + |data| <= g.LineSize()
      modifies this`sets, mem, mem.Buffers()
      ensures mem.Valid() && fresh(mem.Buffers() - old(mem.Buffers()))
      ensures ok == (!cmd.Ignore? && memOk)
      ensures status == if ok then Ok else if cmd.Ignore? then initial else GenericError
      ensures !ok || addr < REACHABLE ==>
        && Valid()
        && View() == (if ok && cmd.Write? then WriteBytes(old(View()), addr, data) else old(View()))
        && out == if ok && cmd.Read? then ReadBytes(old(View()), addr, |data|) else data
      ensures ok && addr >= REACHABLE ==> Misfilled(cmd, addr, data, out)
      ensures mem.View() == old(mem.View())
      ensures sets == if ok then SetLine(old(sets), g.Index(addr), way, NewLine(g, mem.View(), cmd, addr, data))
                      else old(sets)
      ensures ok && addr < REACHABLE ==>
        Tags(sets[g.Index(addr)]) == Tags(old(sets[g.Index(addr)]))[way := Holds(g.Tag(addr))]
      ensures Balance() <= old(Balance()) + Bit(ok && cmd.Write?)
    {
      hide CacheOk, CacheView, Pow2, CacheParams.LineSize, CacheParams.NumSets, CacheParams.Tag,
           CacheParams.Index, CacheParams.Offset, CacheParams.FetchAddr, SparseMemory.Valid,
           SparseMemory.View, WriteBytes, ReadBytes, Tags, DirtyLines, TagLimit, Overwritten,
           CacheTlm.Balance;
      CacheShape(g, sets, queues, mem.View());
      var index, tag := g.Index(addr), HandlerTag(g, addr);
      TagAsUnsigned(g, addr);
      match cmd {
        case Ignore => return false, initial, data;
        case Read => ok, status, out := ReadMissProc(addr, tag, index, way, data, memOk);
        case Write =>
          ok, status := WriteMissProc(addr, tag, index, way, data, memOk);
          out := data;
      }
      if ok {
        OverwrittenFlags(HandlerLine(g, mem.View(), tag, index), g.Offset(addr), data);
        NewLineIs(g, mem.View(), cmd, addr, data);
        FilledTags(old(sets[index]), way, sets[index][way]);
        assert sets[index][way] in sets[index];
      }
    }
  }

  /** The tag as the unsigned int the miss handlers take: unchanged if reachable. */
  lemma TagAsUnsigned(g: CacheParams, addr: nat)
    requires g.Ok()
    ensures HandlerTag(g, addr) < Pow2(32)
    ensures addr < REACHABLE ==> HandlerTag(g, addr) == g.Tag(addr) < TagLimit(g)
  {
    hide CacheParams.Tag, Pow2, TagLimit;
    if addr < REACHABLE {
      TagReachable(g, addr);
      DivModUnique(g.Tag(addr), Pow2(32), 0, g.Tag(addr));
    }
  }

  /** Only a full set has a dirty victim. */
  lemma DirtyVictim(g: CacheParams, sets: seq<seq<Line>>, queues: seq<seq<nat>>, m: Flat, s: nat, w: nat)
    requires g.Ok() && Total(m) && CacheOk(g, sets, queues, m) && s < g.NumSets()
    requires Allocates(sets[s], queues[s], w)
    ensures Bit(sets[s][w].dirty) <= Bit(forall j :: 0 <= j < |sets[s]| ==> sets[s][j].valid)
  {
    hide CacheParams.LineSize, CacheParams.NumSets, LineBase, ReadBytes, Pow2;
    assert SetOk(g, sets[s], queues[s], s, m) && LineOk(g, sets[s][w], s, m);
  }

  /** The line a served miss leaves, put together as the handlers do. */
  lemma NewLineIs(g: CacheParams, m: Flat, cmd: Command, addr: nat, data: seq<Byte>)
    requires g.Ok() && Total(m) && g.Offset(addr) + |data| <= g.LineSize()
    ensures var line := HandlerLine(g, m, HandlerTag(g, addr), g.Index(addr));
      NewLine(g, m, cmd, addr, data) == if cmd.Write? then Overwritten(line, g.Offset(addr), data) else line
  {
    hide ReadBytes, CacheParams.FetchAddr, CacheParams.LineSize, CacheParams.Offset, CacheParams.Index;
  }

  lemma HitEffectOf(g: CacheParams, b: CacheState, a: CacheState, cmd: Command, addr: nat, data: seq<Byte>)
    requires g.Ok() && |b.sets| == g.NumSets()
    requires a.queues == b.queues && a.memory == b.memory && a.writeBacks == b.writeBacks
    requires var s := g.Index(addr); var h := FirstHit(b.sets[s], g.Tag(addr));
      && h < |b.sets[s]| && g.Offset(addr) + |data| <= |b.sets[s][h].data|
      && a.sets == if cmd.Write? then SetLine(b.sets, s, h, Overwritten(b.sets[s][h], g.Offset(addr), data))
                   else b.sets
    ensures HitEffect(g, b, a, cmd, addr, data)
  {
    hide CacheParams.NumSets, CacheParams.Index, CacheParams.Tag, CacheParams.Offset;
    var s := g.Index(addr);
    var row := b.sets[s];
    var h := FirstHit(row, g.Tag(addr));
    assert Matches(row[h], g.Tag(addr)) && forall j :: 0 <= j < h ==> !Matches(row[j], g.Tag(addr));
    assert FirstHolder(row, g.Tag(addr), h);
  }

  lemma MissEffectOf(g: CacheParams, b: CacheState, a: CacheState, cmd: Command, addr: nat, data: seq<Byte>,
                     ok: bool, w: nat)
    requires g.Ok() && |b.sets| == |b.queues| == g.NumSets() && Total(b.memory) && Total(a.memory)
    requires var s := g.Index(addr); var row, queue := b.sets[s], b.queues[s];
      && FirstHit(row, g.Tag(addr)) == |row| && Allocates(row, queue, w)
      && a.queues == b.queues[s := (if row[w].valid then queue[1..] else queue) + [w]]
      && a.memory == (if row[w].dirty then WrittenBack(g, b.memory, row[w], s) else b.memory)
      && a.writeBacks == b.writeBacks + Bit(row[w].dirty)
      && var cleaned := SetLine(b.sets, s, w, row[w].(dirty := false));
         a.sets == if ok then SetLine(cleaned, s, w, NewLine(g, a.memory, cmd, addr, data)) else cleaned
    ensures MissEffect(g, b, a, cmd, addr, data, ok)
  {
    hide CacheParams.NumSets, CacheParams.Index, CacheParams.Tag, CacheParams.Offset, LineBase, WriteBytes, NewLine;
    var s := g.Index(addr);
    var row := b.sets[s];
    SetLineTwice(b.sets, s, w, row[w].(dirty := false), NewLine(g, a.memory, cmd, addr, data));
    assert forall j :: 0 <= j < |row| ==> !Matches(row[j], g.Tag(addr));
  }

  lemma EffectOf(g: CacheParams, b: CacheState, a: CacheState, cmd: Command, addr: nat, data: seq<Byte>, ok: bool)
    requires g.Ok() && |b.sets| == |b.queues| == g.NumSets() && |data| <= g.LineSize()
    requires var row := b.sets[g.Index(addr)];
      if FirstHit(row, g.Tag(addr)) < |row| then HitEffect(g, b, a, cmd, addr, data)
      else MissEffect(g, b, a, cmd, addr, data, ok)
    ensures Effect(g, b, a, cmd, addr, data, ok)
  {
    hide CacheParams.NumSets, CacheParams.Index, CacheParams.Tag, CacheParams.LineSize, HitEffect, MissEffect;
    var row := b.sets[g.Index(addr)];
    var h := FirstHit(row, g.Tag(addr));
    assert h < |row| ==> Matches(row[h], g.Tag(addr));
    assert forall j :: 0 <= j < h ==> !Matches(row[j], g.Tag(addr));
  }

  lemma HitLineSize(g: CacheParams, sets: seq<seq<Line>>, queues: seq<seq<nat>>, m: Flat, addr: nat)
    requires g.Ok() && Total(m) && CacheOk(g, sets, queues, m)
    requires var row := sets[g.Index(addr)]; FirstHit(row, g.Tag(addr)) < |row|
    ensures var s := g.Index(addr); |sets[s][FirstHit(sets[s], g.Tag(addr))].data| == g.LineSize()
  {
    hide CacheParams.LineSize, CacheParams.NumSets, CacheParams.Tag, CacheParams.Index, LineBase, ReadBytes, Pow2;
    var s := g.Index(addr);
    assert SetOk(g, sets[s], queues[s], s, m);
    assert LineOk(g, sets[s][FirstHit(sets[s], g.Tag(addr))], s, m);
  }

  lemma ReadPart(m: Flat, addr: nat, size: nat, offset: nat, len: nat)
    requires Total(m) && offset + len <= size
    ensures ReadBytes(m, addr, size)[offset..offset + len] == ReadBytes(m, addr + offset, len)
  {}

  lemma FilledTags(row: seq<Line>, w: nat, line: Line)
    requires w < |row| && line.valid
    ensures Tags(row[w := line]) == Tags(row)[w := Holds(line.tag)]
  {}

  lemma OverwrittenTags(row: seq<Line>, w: nat, line: Line)
    requires w < |row| && line.valid == row[w].valid && line.tag == row[w].tag
    ensures Tags(row[w := line]) == Tags(row)
  {}

  /** The row after an allocation: same tags, a clean way, still no hit. */
  lemma CleanedRow(row: seq<Line>, row': seq<Line>, w: nat, tag: nat)
    requires w < |row| && row' == row[w := row[w].(dirty := false)] && FirstHit(row, tag) == |row|
    ensures Tags(row') == Tags(row) && !row'[w].dirty && FirstHit(row', tag) == |row'|
  {
    hide FirstHit;
    FirstHitSame(row, row', tag);
  }

  /** The line just filled is the one a lookup finds. */
  lemma FilledHit(row: seq<Line>, row': seq<Line>, w: nat, tag: nat)
    requires |row'| == |row| && w < |row| && FirstHit(row, tag) == |row|
    requires Tags(row') == Tags(row)[w := Holds(tag)]
    ensures FirstHit(row', tag) == w
  {
    assert Tags(row')[w] == Holds(tag);
    forall j | 0 <= j < |row| && j != w ensures !Matches(row'[j], tag) {
      assert !Matches(row[j], tag);
      assert Tags(row')[j] == Tags(row)[j];
    }
    FirstHitAt(row', w, tag);
  }

  lemma HitAccess(row: seq<Line>, queue: seq<nat>, tag: nat)
    requires FirstHit(row, tag) < |row| && Usable(TagSet(Tags(row), queue))
    ensures Access(TagSet(Tags(row), queue), tag) == TagSet(Tags(row), queue)
  {
    HitIsResident(row, queue, tag);
  }

  lemma MissAccess(row: seq<Line>, queue: seq<nat>, w: nat, queue': seq<nat>, tag: nat)
    requires FirstHit(row, tag) == |row| && Usable(TagSet(Tags(row), queue))
    requires (w, queue') == TlmAlloc(ValidBits(Tags(row)), queue) && w < |row|
    ensures Access(TagSet(Tags(row), queue), tag) == TagSet(Tags(row)[w := Holds(tag)], queue')
  {
    HitIsResident(row, queue, tag);
  }

  /** Every set is what its accesses make it under FIFO replacement. */
  ghost predicate FifoSets(ways: nat, sets: seq<seq<Line>>, queues: seq<seq<nat>>, accesses: seq<seq<nat>>)
    requires ways > 0 && |sets| == |queues| == |accesses|
  {
    forall s :: 0 <= s < |sets| ==> TagSet(Tags(sets[s]), queues[s]) == AfterAccesses(ways, accesses[s])
  }

  /** One set steps by one access, the others keep their tags and queues. */
  lemma FifoStep(ways: nat, sets: seq<seq<Line>>, queues: seq<seq<nat>>, accesses: seq<seq<nat>>,
                 sets': seq<seq<Line>>, queues': seq<seq<nat>>, index: nat, tag: nat)
    requires ways > 0 && |sets| == |queues| == |accesses| == |sets'| == |queues'| && index < |sets|
    requires FifoSets(ways, sets, queues, accesses)
    requires sets' == sets[index := sets'[index]] && queues' == queues[index := queues'[index]]
    requires Usable(TagSet(Tags(sets[index]), queues[index]))
    requires TagSet(Tags(sets'[index]), queues'[index]) == Access(TagSet(Tags(sets[index]), queues[index]), tag)
    ensures FifoSets(ways, sets', queues', accesses[index := accesses[index] + [tag]])
  {
    AccessOneMore(ways, accesses[index], tag);
  }

  /** An access that pushes a line out of a set: a miss while the set is full. */
  ghost predicate PushesOut(s: TagSet, tag: nat) {
    Full(ValidBits(s.ways)) && !Resident(s, tag)
  }

  /** Lines pushed out of all sets, from the accesses alone. */
  ghost function Evictions(ways: nat, accesses: seq<seq<nat>>): nat
    requires ways > 0
  {
    if |accesses| == 0 then 0 else Evicted(ways, accesses[0]) + Evictions(ways, accesses[1..])
  }

  lemma {:induction false} EvictionsUpdate(ways: nat, accesses: seq<seq<nat>>, s: nat, tags: seq<nat>)
    requires ways > 0 && s < |accesses|
    ensures Evictions(ways, accesses[s := tags]) + Evicted(ways, accesses[s])
         == Evictions(ways, accesses) + Evicted(ways, tags)
  {
    if s > 0 {
      assert accesses[s := tags][1..] == accesses[1..][s - 1 := tags];
      EvictionsUpdate(ways, accesses[1..], s - 1, tags);
    } else {
      assert accesses[s := tags][1..] == accesses[1..];
    }
  }

  lemma SetEvicts(ways: nat, sets: seq<seq<Line>>, queues: seq<seq<nat>>, accesses: seq<seq<nat>>,
                  index: nat, tag: nat)
    requires ways > 0 && |sets| == |queues| == |accesses| && index < |sets|
    requires FifoSets(ways, sets, queues, accesses)
    ensures Evictions(ways, accesses[index := accesses[index] + [tag]])
         == Evictions(ways, accesses) + Bit(PushesOut(TagSet(Tags(sets[index]), queues[index]), tag))
  {
    hide Evictions, Evicted, Tags;
    EvictionsUpdate(ways, accesses, index, accesses[index] + [tag]);
    EvictedNext(ways, accesses[index], tag);
  }

  lemma FullRow(row: seq<Line>)
    ensures Full(ValidBits(Tags(row))) <==> forall j :: 0 <= j < |row| ==> row[j].valid
  {
    var valid := ValidBits(Tags(row));
    assert forall j :: 0 <= j < |row| ==> valid[j] == row[j].valid;
    assert FirstInvalid(valid) < |row| ==> !row[FirstInvalid(valid)].valid;
  }

  lemma AccessOneMore(ways: nat, tags: seq<nat>, tag: nat)
    requires ways > 0
    ensures AfterAccesses(ways, tags + [tag]) == Access(AfterAccesses(ways, tags), tag)
  {
    assert (tags + [tag])[..|tags|] == tags;
  }


  /** Every line invalid, clean and zero, as the constructor leaves them. */
  function EmptySets(g: CacheParams): (sets: seq<seq<Line>>)
    ensures |sets| == g.NumSets()
  {
    var line := Line(false, false, 0, seq(g.LineSize(), _ => 0));
    seq(g.NumSets(), _ => seq(g.ways, _ => line))
  }

  function EmptyQueues(g: CacheParams): (queues: seq<seq<nat>>)
    ensures |queues| == g.NumSets()
  {
    seq(g.NumSets(), _ => [])
  }

  lemma EmptyCache(g: CacheParams, m: Flat)
    requires g.Ok() && Total(m)
    ensures CacheOk(g, EmptySets(g), EmptyQueues(g), m)
    ensures CacheView(g, EmptySets(g), m) == m
  {
    hide CacheParams.LineSize, CacheParams.NumSets;
    CleanCacheIsMemory(g, EmptySets(g), EmptyQueues(g), m);
  }

  lemma EmptyClean(g: CacheParams)
    ensures DirtyLines(EmptySets(g)) == 0
  {
    hide CacheParams.NumSets, CacheParams.LineSize;
    CleanSets(EmptySets(g));
  }

  lemma EmptyTags(g: CacheParams)
    requires g.Ok()
    ensures FifoSets(g.ways, EmptySets(g), EmptyQueues(g), EmptyQueues(g))
  {
    forall s | 0 <= s < |EmptySets(g)| ensures Tags(EmptySets(g)[s]) == EmptySet(g.ways).ways {}
  }

  lemma CacheShape(g: CacheParams, sets: seq<seq<Line>>, queues: seq<seq<nat>>, m: Flat)
    requires g.Ok() && Total(m) && CacheOk(g, sets, queues, m)
    ensures |sets| == |queues| == g.NumSets() > 0
    ensures forall s :: 0 <= s < g.NumSets() ==> |sets[s]| == g.ways
  {
    assert forall s :: 0 <= s < g.NumSets() ==> SetOk(g, sets[s], queues[s], s, m);
  }

  lemma CleanStaysClean(g: CacheParams, sets: seq<seq<Line>>, queues: seq<seq<nat>>, m: Flat, s: nat, w: nat)
    requires g.Ok() && Total(m) && CacheOk(g, sets, queues, m) && s < g.NumSets() && w < g.ways
    requires !sets[s][w].dirty || !sets[s][w].valid
    ensures sets == SetLine(sets, s, w, sets[s][w].(dirty := false))
  {
    hide Pow2, CacheParams.LineSize, CacheParams.NumSets, LineBase, ReadBytes;
    assert SetOk(g, sets[s], queues[s], s, m) && LineOk(g, sets[s][w], s, m);
    assert sets[s][w := sets[s][w].(dirty := false)] == sets[s];
  }

  lemma WriteBackAddr(g: CacheParams, sets: seq<seq<Line>>, queues: seq<seq<nat>>, m: Flat, s: nat, w: nat)
    requires g.Ok() && Total(m) && CacheOk(g, sets, queues, m) && s < g.NumSets() && w < g.ways
    requires sets[s][w].valid
    ensures var line := sets[s][w];
      && |line.data| == g.LineSize()
      && g.VictimAddr(line.tag, s) == LineBase(g, line.tag, s)
      && LineBase(g, line.tag, s) + g.LineSize() <= REACHABLE
  {
    hide Pow2, CacheParams.LineSize, CacheParams.NumSets, LineBase, ReadBytes, CacheParams.VictimAddr;
    assert SetOk(g, sets[s], queues[s], s, m) && LineOk(g, sets[s][w], s, m);
    LineAddresses(g, sets[s][w].tag, s);
  }

  lemma RowUsable(g: CacheParams, row: seq<Line>, queue: seq<nat>, s: nat, m: Flat)
    requires g.Ok() && Total(m) && SetOk(g, row, queue, s, m)
    ensures Usable(TagSet(Tags(row), queue))
  {
    hide LineOk;
    var valid := ValidBits(Tags(row));
    if Full(valid) {
      assert valid[0] && row[0].valid;
    }
  }

  lemma CacheUsable(g: CacheParams, sets: seq<seq<Line>>, queues: seq<seq<nat>>, m: Flat, s: nat)
    requires g.Ok() && Total(m) && CacheOk(g, sets, queues, m) && s < g.NumSets()
    ensures Usable(TagSet(Tags(sets[s]), queues[s]))
  {
    hide SetOk;
    assert SetOk(g, sets[s], queues[s], s, m);
    RowUsable(g, sets[s], queues[s], s, m);
  }

  /** Queueing an allocated way keeps every valid way queued and every entry a way. */
  lemma AllocKeepsOk(g: CacheParams, sets: seq<seq<Line>>, queues: seq<seq<nat>>, m: Flat, s: nat)
    requires g.Ok() && Total(m) && CacheOk(g, sets, queues, m) && s < g.NumSets()
    requires Usable(TagSet(Tags(sets[s]), queues[s]))
    ensures var (way, queue) := TlmAlloc(ValidBits(Tags(sets[s])), queues[s]);
      way < g.ways && way in queue && CacheOk(g, sets, queues[s := queue], m)
  {
    hide Pow2, CacheParams.LineSize, CacheParams.NumSets, LineOk;
    assert SetOk(g, sets[s], queues[s], s, m);
    AllocQueue(ValidBits(Tags(sets[s])), queues[s]);
    var (way, queue) := TlmAlloc(ValidBits(Tags(sets[s])), queues[s]);
    forall n | 0 <= n < g.NumSets() ensures SetOk(g, sets[n], queues[s := queue][n], n, m) {
      assert SetOk(g, sets[n], queues[n], n, m);
    }
  }
}
